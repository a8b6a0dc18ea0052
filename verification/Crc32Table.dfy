/** The table-driven implementation: a lazily filled table of 256 words and the loop over it. */
module Crc32Table {
  import opened Crc32
  import opened Crc32Laws

  function Slot(index: bv8): (n: nat)
    ensures n < 256
  {
    index as int
  }

  lemma SlotInjective(a: bv8, b: bv8)
    requires Slot(a) == Slot(b)
    ensures a == b
  {
    assert (a as int) as bv8 == a && (b as int) as bv8 == b;
  }

  class Crc32Engine {
    const table: array<bv32>
    var initialized: bool

    /** Once `initialized` is set, entry `i` is the register after eight clocks from `i`. */
    ghost predicate Valid()
      reads this, table
    {
      table.Length == 256 &&
      (initialized ==> Filled(256))
    }

    ghost predicate Filled(n: nat)
      requires n <= table.Length == 256
      reads table
    {
      forall b: bv8 :: Slot(b) < n ==> table[Slot(b)] == TableEntry(b)
    }

    constructor ()
      ensures Valid() && fresh(table)
    {
      table := new bv32[256](_ => 0);
      initialized := false;
    }

    /** The inner loop of `crc32_init_table`. */
    static method EightClocks(index: bv8) returns (crc: bv32)
      ensures crc == TableEntry(index)
    {
      crc := index as bv32;
      var j := 0;
      while j < 8
        invariant 0 <= j <= 8
        invariant Steps(crc, 8 - j) == TableEntry(index)
      {
        if crc & 1 == 1 {
          OddStep(crc);
          crc := (crc >> 1) ^ POLYNOMIAL;
        } else {
          LowBit(crc);
          EvenStep(crc);
          crc := crc >> 1;
        }
        j := j + 1;
      }
    }

    method InitTable()
      requires Valid()
      modifies this, table
      ensures Valid() && initialized
    {
      var i := 0;
      while i < 256
        invariant 0 <= i <= 256
        invariant Filled(i)
        invariant initialized == old(initialized)
      {
        var crc := EightClocks(i as bv8);
        table[i] := crc;
        forall b: bv8 | Slot(b) == i
          ensures b == i as bv8
        {
          SlotInjective(b, i as bv8);
        }
        i := i + 1;
      }
      initialized := true;
    }

    method Begin() returns (crc: bv32)
      requires Valid()
      modifies this, table
      ensures Valid() && initialized
      ensures crc == 0xFFFF_FFFF
    {
      if !initialized {
        InitTable();
      }
      crc := 0xFFFF_FFFF;
    }

    /** `crc32_update`: the table-driven loop equals the bit-serial register on every byte string
        from every start state. */
    method Update(start: bv32, data: seq<bv8>) returns (crc: bv32)
      requires Valid()
      modifies this, table
      ensures Valid() && initialized
      ensures crc == Register(start, data)
    {
      if !initialized {
        InitTable();
      }
      crc := start;
      var i := 0;
      while i < |data|
        invariant 0 <= i <= |data|
        invariant Valid() && initialized
        invariant Register(crc, data[i..]) == Register(start, data)
      {
        UpdateRound(crc, data, i);
        var index := RoundIndex(crc, data[i]);
        crc := Xor(DropByte(crc), table[Slot(index)]);
        i := i + 1;
      }
    }

    /** `crc32`. */
    method Compute(data: seq<bv8>) returns (sum: bv32)
      requires Valid()
      modifies this, table
      ensures Valid() && initialized
      ensures sum == Checksum(data)
    {
      var crc := Begin();
      crc := Update(crc, data);
      sum := Xor(crc, 0xFFFF_FFFF);
    }
  }

  /** Checksumming a message in any number of pieces through one register. */
  method ComputeInPieces(engine: Crc32Engine, pieces: seq<seq<bv8>>) returns (sum: bv32)
    requires engine.Valid()
    modifies engine, engine.table
    ensures engine.Valid()
    ensures sum == Checksum(Flatten(pieces))
  {
    var crc := engine.Begin();
    var i := 0;
    while i < |pieces|
      invariant 0 <= i <= |pieces|
      invariant engine.Valid()
      invariant Register(crc, Flatten(pieces[i..])) == Register(0xFFFF_FFFF, Flatten(pieces))
    {
      RegisterAppend(crc, pieces[i], Flatten(pieces[i..][1..]));
      assert pieces[i..][1..] == pieces[i + 1..];
      crc := engine.Update(crc, pieces[i]);
      i := i + 1;
    }
    sum := Xor(crc, 0xFFFF_FFFF);
  }

  function Flatten(pieces: seq<seq<bv8>>): seq<bv8> {
    if pieces == [] then [] else pieces[0] + Flatten(pieces[1..])
  }
}
