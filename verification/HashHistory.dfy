/** Whole histories of one table: what lookups answer, what rebuilds cost, what becomes of the copies. */
module HashHistory {
  import opened Words
  import opened HashBins
  import opened HashInvariant
  import opened HashTable

  datatype Op<K, V> = InsertOp(key: K, value: V) | DeleteOp(key: K) | LookupOp(key: K)

  /** The value a key has after a history: its last insertion, unless a deletion came later. */
  function LastWrite<K(==), V>(start: map<K, V>, ops: seq<Op<K, V>>, key: K): Option<V> {
    if ops == [] then
      if key in start then Some(start[key]) else None
    else match ops[|ops| - 1]
      case InsertOp(k, v) => if k == key then Some(v) else LastWrite(start, ops[..|ops| - 1], key)
      case DeleteOp(k) => if k == key then None else LastWrite(start, ops[..|ops| - 1], key)
      case LookupOp(_) => LastWrite(start, ops[..|ops| - 1], key)
  }

  function Inserts<K, V>(ops: seq<Op<K, V>>): nat {
    if ops == [] then 0 else Inserts(ops[..|ops| - 1]) + if ops[|ops| - 1].InsertOp? then 1 else 0
  }

  function Find<K(==), V>(m: map<K, V>, key: K): Option<V> {
    if key in m then Some(m[key]) else None
  }

  /** Every copy ever made is owned by one live bin or has been freed, and never both nor twice. */
  lemma EachCopyOnce<K, V>(t: Table<K, V>, id: nat)
    requires t.Valid()
    ensures t.freed[id] + Owned(t.bins[..])[id] == if id < t.nextCopy then 1 else 0
  {
    AllocatedOnce(t.nextCopy, id);
    assert (Owned(t.bins[..]) + t.freed)[id] == Allocated(t.nextCopy)[id];
  }

  lemma {:induction false} OwnedCount<K, V>(bs: seq<Bin<K, V>>, hash: K -> Uint32)
    requires WellFormed(bs, hash)
    ensures |Owned(bs)| == 2 * |LiveSlots(bs)|
  {
    if bs == [] {
      assert LiveSlots(bs) == {};
    } else {
      var n := |bs| - 1;
      OwnedCount(bs[..n], hash);
      assert bs[..n + 1] == bs;
      PrefixStep(bs, n);
    }
  }

  lemma {:induction false} AllocatedCount(n: nat)
    ensures |Allocated(n)| == n
  {
    if n > 0 {
      AllocatedCount(n - 1);
    }
  }

  /** No leak: allocations are two per entry plus the ones given back. */
  lemma NoLeak<K, V>(t: Table<K, V>)
    requires t.Valid()
    ensures t.nextCopy == 2 * |t.Map()| + |t.freed|
  {
    InvParts(t.bins[..], t.hash);
    OwnedCount(t.bins[..], t.hash);
    AllocatedCount(t.nextCopy);
    t.Bounds();
    assert |Owned(t.bins[..]) + t.freed| == |Owned(t.bins[..])| + |t.freed|;
  }

  function Apply<K(==), V>(m: map<K, V>, op: Op<K, V>): map<K, V> {
    match op
    case InsertOp(k, v) => m[k := v]
    case DeleteOp(k) => m - {k}
    case LookupOp(_) => m
  }

  ghost predicate Explains<K(!new), V>(start: map<K, V>, ops: seq<Op<K, V>>, m: map<K, V>) {
    forall key :: Find(m, key) == LastWrite(start, ops, key)
  }

  lemma OneMore<K(!new), V>(start: map<K, V>, ops: seq<Op<K, V>>, n: nat, m: map<K, V>)
    requires n < |ops| && Explains(start, ops[..n], m)
    ensures Explains(start, ops[..n + 1], Apply(m, ops[n]))
    ensures Inserts(ops[..n + 1]) == Inserts(ops[..n]) + if ops[n].InsertOp? then 1 else 0
  {
    assert ops[..n + 1][..n] == ops[..n];
    forall key
      ensures Find(Apply(m, ops[n]), key) == LastWrite(start, ops[..n + 1], key)
    {
      assert Find(m, key) == LastWrite(start, ops[..n], key);
    }
  }

  lemma {:induction false} InsertsGrow<K, V>(ops: seq<Op<K, V>>, n: nat)
    requires n <= |ops|
    ensures Inserts(ops[..n]) <= Inserts(ops)
  {
    if n == |ops| {
      assert ops[..n] == ops;
    } else {
      var before := ops[..|ops| - 1];
      assert before[..n] == ops[..n];
      InsertsGrow(before, n);
    }
  }

  lemma PotentialFloor(used: nat, size: nat, drift: int)
    requires size >= MIN_TABLE_SIZE && drift >= 0
    ensures Potential(used, size, drift) >= 24
    ensures Potential(0, MIN_TABLE_SIZE, 0) == 24
  {
  }

  /** The smallest history `hash_table_size` gets wrong: a second value for the same key leaves one
      entry and a count of zero. */
  method OverwriteMiscounts<K(==), V>(hash: K -> Uint32, key: K, first: V, second: V) returns (n: Uint32, found: Option<V>)
    ensures n == 0 && found == Some(second)
  {
    hide Inv, Contents, Owned, Allocated, Wrap, Potential, PowerOfTwo;
    var t := new Table(hash);
    t.Insert(key, first);
    t.Insert(key, second);
    var p := t.Lookup(key);
    found := Seen(p);
    n := t.Size();
    WrapZero();
  }

  // ------------------------------------------------------------------
  // Space
  // ------------------------------------------------------------------

  /** No drift, and at least an eighth of the bins live, or a sixteenth while there is no tombstone. */
  ghost predicate Snug<K, V>(t: Table<K, V>)
    reads t, t.bins
  {
    t.Drift() == 0 &&
    (t.size == MIN_TABLE_SIZE || 8 * |t.Map()| >= t.size || (t.used == |t.Map()| && 16 * |t.Map()| >= t.size))
  }

  /** A snug table has at most eight bins, or at most sixteen per entry. */
  lemma SnugBound<K, V>(t: Table<K, V>)
    requires Snug(t)
    ensures t.size <= MIN_TABLE_SIZE || t.size <= 16 * |t.Map()|
  {
  }

  /** No insertion meets a key that is present. */
  predicate FreshInserts<K(==), V>(start: map<K, V>, ops: seq<Op<K, V>>) {
    forall i :: 0 <= i < |ops| && ops[i].InsertOp? ==> LastWrite(start, ops[..i], ops[i].key) == None
  }

  /** An insertion of a new key keeps the table snug: arithmetic of the load factors. */
  lemma SnugInsert(size: nat, used: nat, live: nat, size': nat, used': nat, grown: bool)
    requires size >= MIN_TABLE_SIZE && live <= used && (size > MIN_TABLE_SIZE ==> size >= 16)
    requires size == MIN_TABLE_SIZE || 8 * live >= size || (used == live && 16 * live >= size)
    requires if grown then size' == 2 * size && used' == live + 1 && 2 * (used + 1) > size
             else size' == size && (used == live ==> used' == live + 1)
    ensures size' == MIN_TABLE_SIZE || 8 * (live + 1) >= size' || (used' == live + 1 && 16 * (live + 1) >= size')
  {
  }

  /** A deletion keeps it snug, with the shrink test on the exact count. */
  lemma SnugDelete(size: nat, used: nat, live: nat, gone: nat, size': nat, used': nat)
    requires size >= MIN_TABLE_SIZE && gone <= 1 && gone <= live && (size > MIN_TABLE_SIZE ==> size >= 16 && size == 2 * (size / 2))
    requires size == MIN_TABLE_SIZE || 8 * live >= size || (used == live && 16 * live >= size)
    requires var left := live - gone;
             if size > MIN_TABLE_SIZE && 8 * left < size then size' == size / 2 && used' == left
             else size' == size
    requires size / 2 > MIN_TABLE_SIZE ==> size >= 32
    ensures var left := live - gone;
            size' == MIN_TABLE_SIZE || 8 * left >= size' || (used' == left && 16 * left >= size')
  {
  }

  lemma Sizes(n: nat)
    requires PowerOfTwo(n) && n >= MIN_TABLE_SIZE
    ensures n > MIN_TABLE_SIZE ==> n >= 16 && n == 2 * (n / 2)
    ensures n / 2 > MIN_TABLE_SIZE ==> n >= 32
  {
    if n > MIN_TABLE_SIZE {
      HalvedPower(n);
      if n / 2 > MIN_TABLE_SIZE {
        HalvedPower(n / 2);
      }
    }
  }

  lemma TableSizes<K, V>(t: Table<K, V>)
    requires t.Valid()
    ensures MIN_TABLE_SIZE <= t.size <= MAX_TABLE_SIZE && |t.Map()| <= t.used <= t.size && t.Drift() >= 0
    ensures t.size > MIN_TABLE_SIZE ==> t.size >= 16 && t.size == 2 * (t.size / 2)
    ensures t.size / 2 > MIN_TABLE_SIZE ==> t.size >= 32
  {
    hide PowerOfTwo, Inv;
    t.Bounds();
    Sizes(t.size);
  }

  /** `hash_table_insert` keeps a table snug when the key is new. */
  method InsertCall<K(==), V>(t: Table<K, V>, key: K, value: V)
    requires t.Valid() && t.used + 1 <= MAX_TABLE_SIZE / 4
    modifies t, t.bins
    ensures t.Valid() && (t.bins == old(t.bins) || fresh(t.bins))
    ensures t.used <= old(t.used) + 1 && t.Map() == old(t.Map())[key := value]
    ensures t.nextCopy == old(t.nextCopy) + 2 && t.Cost() <= old(t.Cost()) + 24
    ensures old(Snug(t)) && key !in old(t.Map()) ==> Snug(t)
  {
    hide Table.Valid, Table.Map, Table.Cost, Table.Drift;
    ghost var size, used, live, rebuilds := t.size, t.used, |t.Map()|, t.rebuilds;
    ghost var applies := Snug(t) && key !in t.Map();
    TableSizes(t);
    t.Insert(key, value);
    if applies {
      SnugInsert(size, used, live, t.size, t.used, t.rebuilds != rebuilds);
    }
  }

  /** `hash_table_delete` keeps a table snug. */
  method DeleteCall<K(==), V>(t: Table<K, V>, key: K)
    requires t.Valid()
    modifies t, t.bins
    ensures t.Valid() && (t.bins == old(t.bins) || fresh(t.bins))
    ensures t.used <= old(t.used) && t.Map() == old(t.Map()) - {key}
    ensures t.nextCopy == old(t.nextCopy) && t.Cost() <= old(t.Cost())
    ensures old(Snug(t)) ==> Snug(t)
  {
    hide Table.Valid, Table.Map, Table.Cost, Table.Drift, Wrap;
    ghost var size, used, live := t.size, t.used, |t.Map()|;
    ghost var applies, gone := Snug(t), if key in t.Map() then 1 else 0;
    TableSizes(t);
    t.Delete(key);
    TableSizes(t);
    assert |t.Map()| == live - gone;
    if applies {
      WrapIsMod(|t.Map()|);
      ModSmall(|t.Map()|);
      SnugDelete(size, used, live, gone, t.size, t.used);
    }
  }

  /** One call of the history. */
  method Call<K(==), V>(t: Table<K, V>, op: Op<K, V>) returns (answer: Option<V>)
    requires t.Valid() && (op.InsertOp? ==> t.used + 1 <= MAX_TABLE_SIZE / 4)
    modifies t, t.bins
    ensures t.Valid() && (t.bins == old(t.bins) || fresh(t.bins))
    ensures t.used <= old(t.used) + if op.InsertOp? then 1 else 0
    ensures answer == if op.LookupOp? then Find(old(t.Map()), op.key) else None
    ensures t.Map() == Apply(old(t.Map()), op)
    ensures t.nextCopy == old(t.nextCopy) + if op.InsertOp? then 2 else 0
    ensures t.Cost() <= old(t.Cost()) + if op.InsertOp? then 24 else 0
    ensures old(Snug(t)) && (op.InsertOp? ==> op.key !in old(t.Map())) ==> Snug(t)
  {
    hide Table.Valid, Table.Map, Table.Cost, Snug;
    answer := None;
    match op {
      case InsertOp(k, v) =>
        InsertCall(t, k, v);
      case DeleteOp(k) =>
        DeleteCall(t, k);
      case LookupOp(k) =>
        var p := t.Lookup(k);
        answer := Seen(p);
    }
  }

  /** Every lookup so far was answered with the last write before it. */
  ghost predicate Answered<K(!new), V>(start: map<K, V>, ops: seq<Op<K, V>>, answers: seq<Option<V>>) {
    |answers| <= |ops| &&
    forall i :: 0 <= i < |answers| && ops[i].LookupOp? ==> answers[i] == LastWrite(start, ops[..i], ops[i].key)
  }

  lemma AnsweredNone<K(!new), V>(start: map<K, V>, ops: seq<Op<K, V>>)
    ensures Answered(start, ops, []) && Explains(start, ops[..0], start) && Inserts(ops[..0]) == 0
  {
  }

  lemma AnsweredOne<K(!new), V>(start: map<K, V>, ops: seq<Op<K, V>>, answers: seq<Option<V>>, m: map<K, V>, answer: Option<V>)
    requires |answers| < |ops| && Answered(start, ops, answers) && Explains(start, ops[..|answers|], m)
    requires ops[|answers|].LookupOp? ==> answer == Find(m, ops[|answers|].key)
    ensures Answered(start, ops, answers + [answer])
  {
    var n := |answers|;
    if ops[n].LookupOp? {
      assert Find(m, ops[n].key) == LastWrite(start, ops[..n], ops[n].key);
    }
  }

  lemma FreshHere<K(!new), V>(start: map<K, V>, ops: seq<Op<K, V>>, n: nat, m: map<K, V>)
    requires n < |ops| && FreshInserts(start, ops) && Explains(start, ops[..n], m)
    ensures ops[n].InsertOp? ==> ops[n].key !in m
  {
    if ops[n].InsertOp? {
      assert Find(m, ops[n].key) == LastWrite(start, ops[..n], ops[n].key);
    }
  }

  /** Any history on any valid table: lookups answer the last write, whatever tombstones were reused
      and however often the table was rebuilt, and the rebuilds cost at most 24 bins per insertion. */
  method Replay<K(==, !new), V>(t: Table<K, V>, ops: seq<Op<K, V>>) returns (answers: seq<Option<V>>)
    requires t.Valid() && t.used + Inserts(ops) <= MAX_TABLE_SIZE / 4
    modifies t, t.bins
    ensures t.Valid() && (t.bins == old(t.bins) || fresh(t.bins)) && |answers| == |ops|
    ensures forall i :: 0 <= i < |ops| && ops[i].LookupOp? ==> answers[i] == LastWrite(old(t.Map()), ops[..i], ops[i].key)
    ensures Explains(old(t.Map()), ops, t.Map())
    ensures t.nextCopy == old(t.nextCopy) + 2 * Inserts(ops)
    ensures t.Cost() <= old(t.Cost()) + 24 * Inserts(ops)
    ensures old(Snug(t)) && FreshInserts(old(t.Map()), ops) ==> Snug(t)
  {
    answers := ReplayAll(t, ops, t.Map());
    assert Answered(old(t.Map()), ops, answers);
  }

  method ReplayAll<K(==, !new), V>(t: Table<K, V>, ops: seq<Op<K, V>>, ghost start: map<K, V>) returns (answers: seq<Option<V>>)
    requires t.Valid() && t.used + Inserts(ops) <= MAX_TABLE_SIZE / 4 && start == t.Map()
    modifies t, t.bins
    ensures t.Valid() && (t.bins == old(t.bins) || fresh(t.bins))
    ensures |answers| == |ops| && Answered(start, ops, answers) && Explains(start, ops, t.Map())
    ensures t.nextCopy == old(t.nextCopy) + 2 * Inserts(ops)
    ensures t.Cost() <= old(t.Cost()) + 24 * Inserts(ops)
    ensures old(Snug(t)) && FreshInserts(start, ops) ==> Snug(t)
  {
    hide Table.Valid, Table.Map, Table.Cost, Answered, Explains, Inserts, Apply, Snug, FreshInserts;
    ghost var snug := Snug(t) && FreshInserts(start, ops);
    answers := [];
    var n := 0;
    AnsweredNone(start, ops);
    while n < |ops|
      invariant 0 <= n <= |ops| && |answers| == n
      invariant t.Valid() && (t.bins == old(t.bins) || fresh(t.bins))
      invariant t.used + Inserts(ops) <= MAX_TABLE_SIZE / 4 + Inserts(ops[..n])
      invariant Answered(start, ops, answers) && Explains(start, ops[..n], t.Map())
      invariant t.nextCopy == old(t.nextCopy) + 2 * Inserts(ops[..n])
      invariant t.Cost() <= old(t.Cost()) + 24 * Inserts(ops[..n])
      invariant snug ==> Snug(t)
    {
      ghost var m := t.Map();
      if snug {
        FreshHere(start, ops, n, m);
      }
      OneMore(start, ops, n, m);
      InsertsGrow(ops, n + 1);
      var answer := Call(t, ops[n]);
      AnsweredOne(start, ops, answers, m, answer);
      answers := answers + [answer];
      n := n + 1;
    }
    assert ops[..n] == ops;
  }

  /** A history from `hash_table_create` to `hash_table_destroy`: what it answers, the bins all its
      rebuilds touched, and the copies it gave back. */
  method Lifetime<K(==, !new), V>(hash: K -> Uint32, ops: seq<Op<K, V>>)
    returns (answers: seq<Option<V>>, ghost work: nat, ghost freed: multiset<nat>)
    requires Inserts(ops) <= MAX_TABLE_SIZE / 4
    ensures |answers| == |ops|
    ensures forall i :: 0 <= i < |ops| && ops[i].LookupOp? ==> answers[i] == LastWrite(map[], ops[..i], ops[i].key)
    ensures work <= MIN_TABLE_SIZE + 24 * Inserts(ops)
    ensures forall id: nat :: freed[id] == if id < 2 * Inserts(ops) then 1 else 0
  {
    hide Inv, Contents, Owned, Allocated, Wrap, Potential, PowerOfTwo;
    var t := new Table(hash);
    PotentialFloor(0, MIN_TABLE_SIZE, 0);
    answers := Replay(t, ops);
    work := t.work;
    t.Bounds();
    PotentialFloor(t.used, t.size, t.Drift());
    t.Destroy();
    freed := t.freed;
  }
}
