/** Which instructions can write memory. */
module StorePolicy {
  import opened Encoding
  import opened OpTable
  import opened VmStrings
  import opened Machine
  import opened RuntimeLaws
  import opened Instructions
  import opened Effects
  import opened ImmediatePolicy
  import Num = WordNumbers

  /** On some machine the instruction changes memory. */
  ghost predicate CanWrite(op: nat, env: Env)
    requires op < OPCODES
  {
    exists m: Machine, w: bv32 :: m.Valid() && Writes(op, w, m, env)
  }

  predicate Writes(op: nat, w: bv32, m: Machine, env: Env)
    requires m.Valid() && op < OPCODES
  {
    Exec(op, w, m, env).mem != m.mem
  }

  lemma EditWrites(op: nat, n: bv8, env: Env)
    requires IsEdit(op) && Int8(n) >= 0 && EditBytes(op, MEMORY, 1, 1, 1, Int8(n)) != MEMORY
    ensures CanWrite(op, env)
  {
    hide Exec, Coded, Num.Word, EditBytes, Int8;
    var m, x := Uniform(1), Operands(1, 1, true, n);
    assert m.mem == MEMORY;
    hide Uniform, Num.Number;
    Ones();
    EditWords(op, x, m, env);
    assert Writes(op, Coded(op, x), m, env);
  }

  lemma ConcatWrites()
    ensures EditBytes(40, MEMORY, 1, 1, 1, 0) != MEMORY
  {
    hide StrLen, Text, Concat, Frame;
    MemoryText();
    ConcatAppends(MEMORY, 1, 1);
    FittingAll(MEMORY, 1, 1);
  }

  lemma EditsWrite(op: nat, env: Env)
    requires IsEdit(op)
    ensures CanWrite(op, env)
  {
    hide CanWrite, EditBytes, Left, Right, Mid, Insert, Delete, Replace, Int8;
    SmallInt8();
    EditCases(0);
    EditCases(1);
    EditCases(3);
    CutsDiffer();
    InsertDiffers();
    ReplaceDiffers();
    ConcatWrites();
    if EditBytes(op, MEMORY, 1, 1, 1, 0) != MEMORY {
      EditWrites(op, 0, env);
    } else if EditBytes(op, MEMORY, 1, 1, 1, 1) != MEMORY {
      EditWrites(op, 1, env);
    } else {
      EditWrites(op, 3, env);
    }
  }

  lemma DemuxWrites(env: Env)
    ensures CanWrite(61, env)
  {
    hide Exec, Coded, Num.Word, Num.Number, Int8, LittleEndian;
    var m, x := Uniform(1), Operands(1, 1, true, 0);
    assert m.mem == MEMORY;
    hide Uniform;
    Ones();
    SmallInt8();
    StoredByte();
    StoreWords(x, m, env);
    assert Exec(61, Coded(61, x), m, env).mem[1] == 1;
    assert Writes(61, Coded(61, x), m, env);
  }

  /** The store instructions are exactly those that can write memory. */
  lemma StoreIff(op: nat, env: Env)
    requires op < OPCODES
    ensures IsStore(op) <==> CanWrite(op, env)
  {
    if IsEdit(op) {
      EditsWrite(op, env);
    } else if op == 61 {
      DemuxWrites(env);
    } else {
      forall m: Machine, w: bv32 | m.Valid()
        ensures !Writes(op, w, m, env)
      {
        OnlyStoresWrite(op, w, m, env);
      }
    }
  }
}
