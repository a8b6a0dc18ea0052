/** Overwrites and the size of the table: the drifting counter lets an empty table grow without bound. */
module HashSpace {
  import opened Words
  import opened HashBins
  import opened HashInvariant
  import opened HashTable
  import opened HashHistory

  function Identity(k: Uint32): Uint32 { k }

  /** The slot of a small number is the number. */
  lemma HomeOfSlot(r: nat, size: nat)
    requires PowerOfTwo(size) && r < size <= MAX_TABLE_SIZE
    ensures Home(r, size) == r
  {
    MaskIsMod(r, size);
    ModUnique(r, size, 0, r);
  }

  /** A key whose home bin was never used, and is therefore not in the table. */
  method UnusedKey<V>(t: Table<Uint32, V>) returns (key: Uint32)
    requires t.Valid() && t.hash == Identity
    ensures key < t.size && PowerOfTwo(t.size) && Home(t.hash(key), t.size) == key && !t.bins[key].inProbe
    ensures key !in t.Map()
  {
    hide Contents, PowerOfTwo, Inv;
    t.Bounds();
    ghost var stop := UnusedOnPath(t.bins[..], 0);
    key := 0;
    while t.bins[key].inProbe
      invariant key < t.size == t.bins.Length && key <= stop
      decreases stop - key
    {
      key := key + 1;
    }
    HomeOfSlot(key, t.size);
    Absent(t.bins[..], t.hash, key, 0);
  }

  /** A fresh key is inserted and overwritten. */
  method InsertTwice<V>(t: Table<Uint32, V>, v: V) returns (key: Uint32)
    requires t.Valid() && t.hash == Identity && t.Map() == map[]
    requires t.Drift() <= t.used && t.used + 1 <= MAX_TABLE_SIZE / 8
    modifies t, t.bins
    ensures t.Valid() && (t.bins == old(t.bins) || fresh(t.bins))
    ensures t.Map() == map[key := v] && 0 < t.Drift() <= t.used
    ensures (t.size == old(t.size) && t.used == old(t.used) + 1) || (t.size == 2 * old(t.size) && t.used == 1)
  {
    hide Table.Valid, Table.Map, Table.Cost, Table.Drift, Home, PowerOfTwo;
    key := UnusedKey(t);
    TableSizes(t);
    t.Insert(key, v);
    TableSizes(t);
    t.Insert(key, v);
  }

  /** Insert, overwrite, delete: the counter passes through zero to 2^32 - 1, and the load test of the
      deletion does not see that the table is empty. */
  method Round<V>(t: Table<Uint32, V>, v: V)
    requires t.Valid() && t.hash == Identity && t.Map() == map[]
    requires t.Drift() <= t.used && t.used + 1 <= MAX_TABLE_SIZE / 8
    modifies t, t.bins
    ensures t.Valid() && (t.bins == old(t.bins) || fresh(t.bins))
    ensures t.Map() == map[] && t.Drift() <= t.used
    ensures (t.size == old(t.size) && t.used == old(t.used) + 1) || (t.size == 2 * old(t.size) && t.used == 1)
  {
    hide Table.Valid, Table.Map, Table.Cost, Table.Drift, Wrap, PowerOfTwo;
    var key := InsertTwice(t, v);
    TableSizes(t);
    WrapIsMod(0 - t.Drift());
    NegativeCount(t.Drift());
    t.Delete(key);
    assert t.Map() == map[];
  }

  /** A counter just below zero reads as almost 2^32. */
  lemma NegativeCount(d: int)
    requires 0 < d <= MAX_TABLE_SIZE
    ensures (0 - d) % U32 == U32 - d
  {
  }

  /** With overwrites there is no space bound: an empty table can be of any size. */
  method EmptyButLarge<V>(v: V, target: nat) returns (t: Table<Uint32, V>)
    requires target <= MAX_TABLE_SIZE / 16
    ensures t.Valid() && t.Map() == map[] && t.size >= target
  {
    hide Table.Valid, Table.Map, Table.Cost, Table.Drift;
    t := new Table(Identity);
    while t.size < target
      invariant fresh(t) && fresh(t.bins) && t.Valid() && t.hash == Identity && t.Map() == map[] && t.Drift() <= t.used
      invariant t.size <= MAX_TABLE_SIZE / 8 && 2 * t.used <= t.size
      decreases target - t.size, t.size - t.used
    {
      Round(t, v);
      HalfUsed(t);
    }
  }

  lemma HalfUsed<K, V>(t: Table<K, V>)
    requires t.Valid()
    ensures 2 * t.used <= t.size
  {
  }
}
