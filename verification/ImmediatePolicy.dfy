/** The operand policy of the assembler against the interpreter: an immediate is accepted exactly where it
    makes a difference. */
module ImmediatePolicy {
  import opened Words
  import opened Encoding
  import opened OpTable
  import opened Timers
  import opened VmStrings
  import opened Machine
  import opened Instructions
  import opened Effects
  import opened Blocks
  import Assembler
  import WrittenLines
  import Num = WordNumbers

  /** The two readings of operand C lead to different machines. */
  predicate Differs(op: nat, a: bv8, b: bv8, c: bv8, m: Machine, env: Env)
    requires op < OPCODES && m.Valid()
  {
    Exec(op, Coded(op, Operands(a, b, true, c)), m, env) != Exec(op, Coded(op, Operands(a, b, false, c)), m, env)
  }

  /** On some machine an immediate is not the same as a register. */
  ghost predicate Matters(op: nat, a: bv8, b: bv8, env: Env)
    requires op < OPCODES
  {
    exists m: Machine, c: bv8 :: m.Valid() && Differs(op, a, b, c, m, env)
  }

  // ------------------------------------------------------------------
  // Where it makes none
  // ------------------------------------------------------------------

  predicate Unary(op: nat) { op == 6 || op == 20 || op == 39 || op == 40 || op == 52 || op == 54 || op == 66 || op == 67 }

  lemma AluWords(op: nat, x: Operands, m: Machine, env: Env)
    requires m.Valid() && op < OPCODES && IsAlu(op)
    ensures Exec(op, Coded(op, x), m, env) == m.(reg := m.reg[Index(x.a) := Alu(op, m.reg[Index(x.b)], x.CWord(m))])
  {
    hide Coded, RegA, RegB, RegC, HasImm, FieldC, CValue, Alu, Operands.CWord;
    CodedFields(op, x);
    CodedThird(op, x, m);
  }

  lemma OneOperand(b: bv32, c: bv32, d: bv32)
    ensures Alu(6, b, c) == Alu(6, b, d) && Alu(20, b, c) == Alu(20, b, d)
  {
    hide Magnitude, Not;
  }

  lemma NoDifference(op: nat, a: bv8, b: bv8, c: bv8, m: Machine, env: Env)
    requires m.Valid() && Unary(op)
    ensures !Differs(op, a, b, c, m, env)
  {
    hide Exec, Coded, Alu, Num.Number, Num.Word, EditBytes, Operands.CWord, Length, WordOrZero;
    var x, y := Operands(a, b, true, c), Operands(a, b, false, c);
    if op == 6 || op == 20 {
      AluWords(op, x, m, env);
      AluWords(op, y, m, env);
      OneOperand(m.reg[Index(b)], x.CWord(m), y.CWord(m));
    } else if op == 39 {
      LengthWords(x, m, env);
      LengthWords(y, m, env);
    } else if op == 40 {
      EditWords(40, x, m, env);
      EditWords(40, y, m, env);
      ConcatOnly(m.mem, Num.Number(m.reg[Index(a)]), x.B(m), Num.Number(m.reg[Index(c)]), x.C(m), y.C(m));
    } else if op == 54 {
      SelWord(x, m, env);
      SelWord(y, m, env);
    } else {
      NoDifferenceEither(op, a, b, c, m, env);
    }
  }

  lemma ConcatOnly(m: Bytes, a: nat, b: nat, c: nat, n: nat, k: nat)
    ensures EditBytes(40, m, a, b, c, n) == EditBytes(40, m, a, b, c, k)
  {
    hide Concat;
  }

  lemma NoDifferenceEither(op: nat, a: bv8, b: bv8, c: bv8, m: Machine, env: Env)
    requires m.Valid() && (op == 52 || op == 66 || op == 67)
    ensures !Differs(op, a, b, c, m, env)
  {
    hide Exec, Coded, Num.Number, Num.Word, CountUp, CountDown, CountUpDown, UpDown;
    var x, y := Operands(a, b, true, c), Operands(a, b, false, c);
    if op == 52 {
      CounterIs(x, m, env);
      CounterIs(y, m, env);
      CountBothEffect(x, m);
      CountBothEffect(y, m);
    } else {
      EndWords(x, m, env);
      EndWords(y, m, env);
    }
  }

  // ------------------------------------------------------------------
  // Witnesses
  // ------------------------------------------------------------------

  /** Memory with the text AB at address 1. */
  const MEMORY: Bytes := [0, 65, 66, 0, 0, 0, 0, 0]

  /** Counter 1 of the down counters stands at 5 and every RS latch is on. */
  function SomeBanks(): (b: Banks)
    ensures b.Valid()
  {
    NO_BANKS.(ctd := Zeros()[1 := 5], ctdPrev := Off()[1 := true], rs := seq(MAX_TIMERS, i => true))
  }

  /** A machine with the same value in every register. */
  function Uniform(v: bv32): (m: Machine)
    ensures m.Valid() && |m.mem| == 8 && forall i :: 0 <= i < REG_COUNT ==> m.reg[i] == v
  {
    Created(8).(reg := seq(REG_COUNT, i => v), mem := MEMORY, banks := SomeBanks())
  }

  lemma Ones()
    ensures Num.Number(1) == 1 && Num.Number(0) == 0 && Num.Word(0) == 0 && Num.Word(1) == 1 && Num.Word(2) == 2 && Num.Word(4) == 4
    ensures Num.Number(2) == 2 && Num.Number(4) == 4
  {
  }

  lemma SmallInt8()
    ensures Int8(0) == 0 && Int8(2) == 2 && Int8(3) == 3 && Int8(4) == 4 && Int8(7) == 7 && Int8(1) == 1
  {
  }

  lemma AluDiffers(op: nat)
    requires op <= 2 || 17 <= op <= 19 || 21 <= op <= 26 || op == 31 || op == 32
    ensures Alu(op, 1, 1) != Alu(op, 1, if op == 23 || op == 26 then 0 else 2)
  {
    hide Quotient, Remainder, Magnitude;
  }

  lemma DivisionDiffers()
    ensures Alu(3, 1, 1) != Alu(3, 1, 2) && Alu(4, 1, 1) != Alu(4, 1, 2)
  {
    hide Quotient, Remainder, Num.Number;
    Ones();
    DivisionNumbers(1, 1);
    DivisionNumbers(1, 2);
    DivisionCases(1, 1);
    DivisionCases(1, 2);
  }

  /** An immediate as a word. */
  function ImmWord(c: bv8): bv32 { Num.Word(Int8(c) % U32) }

  lemma ImmWords()
    ensures ImmWord(0) == 0 && ImmWord(2) == 2
  {
    Ones();
    SmallInt8();
    hide Num.Word, Int8;
  }

  lemma AluMattersAt(op: nat, a: bv8, b: bv8, c: bv8, env: Env)
    requires op < OPCODES && IsAlu(op) && Alu(op, 1, ImmWord(c)) != Alu(op, 1, 1)
    ensures Matters(op, a, b, env)
  {
    hide Exec, Coded, Alu, Num.Number, Num.Word, Uniform, Int8;
    var m, x, y := Uniform(1), Operands(a, b, true, c), Operands(a, b, false, c);
    AluWords(op, x, m, env);
    AluWords(op, y, m, env);
    assert Exec(op, Coded(op, x), m, env).reg[Index(a)] != Exec(op, Coded(op, y), m, env).reg[Index(a)];
    assert Differs(op, a, b, c, m, env);
  }

  predicate SomeAlu(op: nat) { op <= 4 || 17 <= op <= 19 || 21 <= op <= 26 || op == 31 || op == 32 }

  /** Arithmetic, logic and comparison. */
  lemma AluMatters(op: nat, a: bv8, b: bv8, env: Env)
    requires SomeAlu(op)
    ensures Matters(op, a, b, env)
  {
    hide Alu, Matters, ImmWord;
    var c: bv8 := if op == 23 || op == 26 then 0 else 2;
    ImmWords();
    if op == 3 || op == 4 {
      DivisionDiffers();
    } else {
      AluDiffers(op);
    }
    AluMattersAt(op, a, b, c, env);
  }

  // ------------------------------------------------------------------
  // Strings
  // ------------------------------------------------------------------

  lemma MemoryText()
    ensures StrLen(MEMORY, 1) == 2 && Terminated(MEMORY, 1) && Text(MEMORY, 1) == [65, 66] && Room(MEMORY, 1) == 4
  {
    assert StrLen(MEMORY, 3) == 0;
    assert StrLen(MEMORY, 2) == 1;
  }

  lemma EditMattersAt(op: nat, a: bv8, b: bv8, c: bv8, n: nat, env: Env)
    requires IsEdit(op) && Int8(c) == n && EditBytes(op, MEMORY, 1, 1, 1, n) != EditBytes(op, MEMORY, 1, 1, 1, 1)
    ensures Matters(op, a, b, env)
  {
    hide Exec, Coded, Num.Word, EditBytes, Int8;
    var m, x, y := Uniform(1), Operands(a, b, true, c), Operands(a, b, false, c);
    assert m.mem == MEMORY;
    hide Uniform, Num.Number;
    Ones();
    EditWords(op, x, m, env);
    EditWords(op, y, m, env);
    assert Exec(op, Coded(op, x), m, env).mem != Exec(op, Coded(op, y), m, env).mem;
    assert Differs(op, a, b, c, m, env);
  }

  /** LEFT, RIGHT, MID and DELETE: with 0 and with 1. */
  lemma CutsDiffer()
    ensures Left(MEMORY, 1, 0) != Left(MEMORY, 1, 1) && Right(MEMORY, 1, 0) != Right(MEMORY, 1, 1)
    ensures Mid(MEMORY, 1, 0) != Mid(MEMORY, 1, 1) && Delete(MEMORY, 1, 1, 0) != Delete(MEMORY, 1, 1, 1)
  {
    hide StrLen, Text, Left, Right, Mid, Delete, Frame;
    MemoryText();
    LeftIsPrefix(MEMORY, 1, 0);
    LeftIsPrefix(MEMORY, 1, 1);
    RightIsSuffix(MEMORY, 1, 0);
    RightIsSuffix(MEMORY, 1, 1);
    MidIsDrop(MEMORY, 1, 0);
    MidIsDrop(MEMORY, 1, 1);
    DeleteCuts(MEMORY, 1, 1, 0);
    DeleteCuts(MEMORY, 1, 1, 1);
  }

  lemma GapByte(m: Bytes, p: nat, tail: nat, src: nat, k: nat, i: nat)
    requires p + k + tail <= |m| && src + k <= |m| && i < |m|
    ensures var x := Move(m, p + k, p, tail);
            OpenGap(m, p, tail, src, k)[i] == if p <= i < p + k then x[src + i - p] else x[i]
  {
    hide Write;
  }

  /** INSERT at 0 and at 1: the text in front of itself, and inside itself. */
  lemma InsertDiffers()
    ensures Insert(MEMORY, 1, 1, 0) != Insert(MEMORY, 1, 1, 1)
  {
    hide StrLen, Text, OpenGap, Write;
    MemoryText();
    GapByte(MEMORY, 1, 3, 1, 2, 2);
    GapByte(MEMORY, 2, 2, 1, 2, 2);
    assert Insert(MEMORY, 1, 1, 0) == OpenGap(MEMORY, 1, 3, 1, 2) && Insert(MEMORY, 1, 1, 1) == OpenGap(MEMORY, 2, 2, 1, 2);
    assert OpenGap(MEMORY, 1, 3, 1, 2)[2] == 66 && OpenGap(MEMORY, 2, 2, 1, 2)[2] == 65;
  }

  lemma CutByte()
    ensures SafeMove(MEMORY, 2, 3, 1)[1] == 65
  {
    hide Write;
  }

  lemma ReplaceBehind()
    ensures Replace(MEMORY, 1, 1, 3) == MEMORY
  {
    hide StrLen, OpenGap, Write, Room, SafeMove;
    MemoryText();
  }

  /** REPLACE at 3, behind the text, does nothing; at 1 it does. */
  lemma ReplaceDiffers()
    ensures Replace(MEMORY, 1, 1, 3) != Replace(MEMORY, 1, 1, 1)
  {
    hide StrLen, Text, OpenGap, Write, Replace, SafeMove, Room;
    MemoryText();
    ReplaceBehind();
    ReplaceIsGap(MEMORY, 1, 1, 1);
    CutByte();
    GapByte(SafeMove(MEMORY, 2, 3, 1), 2, 1, 1, 1, 2);
    assert Replace(MEMORY, 1, 1, 1)[2] == 65;
  }

  lemma EditCases(n: nat)
    ensures EditBytes(41, MEMORY, 1, 1, 1, n) == Left(MEMORY, 1, n) && EditBytes(42, MEMORY, 1, 1, 1, n) == Right(MEMORY, 1, n)
    ensures EditBytes(43, MEMORY, 1, 1, 1, n) == Mid(MEMORY, 1, n) && EditBytes(44, MEMORY, 1, 1, 1, n) == Insert(MEMORY, 1, 1, n)
    ensures EditBytes(45, MEMORY, 1, 1, 1, n) == Delete(MEMORY, 1, 1, n) && EditBytes(46, MEMORY, 1, 1, 1, n) == Replace(MEMORY, 1, 1, n)
  {
    hide Left, Right, Mid, Insert, Delete, Replace;
  }

  /** The string edits with a count or a position. */
  lemma EditMatters(op: nat, a: bv8, b: bv8, env: Env)
    requires 41 <= op <= 46
    ensures Matters(op, a, b, env)
  {
    hide Matters, EditBytes, Left, Right, Mid, Insert, Delete, Replace, Int8;
    var c: bv8, n := if op == 46 then 3 else 0, if op == 46 then 3 else 0;
    SmallInt8();
    EditCases(0);
    EditCases(1);
    EditCases(3);
    CutsDiffer();
    InsertDiffers();
    ReplaceDiffers();
    EditMattersAt(op, a, b, c, n, env);
  }

  // ------------------------------------------------------------------
  // Timers and counters
  // ------------------------------------------------------------------

  lemma SetEnables(k: Kind, t: TimerState, input: bool, p: nat, now: nat)
    ensures Set(k, t, input, p, now).enabled
  {
    hide MsDiff, Split;
  }

  /** A timer instruction without an immediate does nothing at all. */
  lemma TimerMatters(k: Kind, a: bv8, b: bv8, env: Env)
    requires k == TON || k == TOF || k == TP
    ensures Matters(TimerCode(k), a, b, env)
  {
    hide Exec, Coded, TimerOp, Set, Num.Word, Rows.With;
    var op, m, x, y := TimerCode(k), Uniform(1), Operands(a, b, true, 0), Operands(a, b, false, 0);
    IdleTimer(k, 1);
    hide Uniform;
    TimerIs(k, op, x, m, env);
    TimerIs(k, op, y, m, env);
    TimerEffect(k, op, x, m);
    TimerEffect(k, op, y, m);
    SetEnables(k, m.rows.Row(k)[0], m.reg[Index(b)] != 0, Num.Number(m.reg[0]), m.timeMs);
    assert Exec(op, Coded(op, x), m, env).rows.Row(k)[0] != Exec(op, Coded(op, y), m, env).rows.Row(k)[0];
    assert Differs(op, a, b, 0, m, env);
  }

  lemma IdleTimer(k: Kind, v: bv32)
    ensures !Uniform(v).rows.Row(k)[0].enabled
  {
  }

  lemma BanksAre()
    ensures var b := Uniform(1).banks; b.ctu[1] == 0 && !b.ctuPrev[1] && b.ctd[1] == 5 && b.ctdPrev[1]
    ensures var b := Uniform(1).banks; forall i :: 0 <= i < MAX_TIMERS ==> b.rs[i] && !b.sr[i] && !b.rising[i] && !b.falling[i] && !b.both[i]
  {
  }

  lemma CtuMatters(a: bv8, b: bv8, env: Env)
    ensures Matters(50, a, b, env)
  {
    hide Exec, Coded, CountUp, CountDown, CountUpDown, Num.Word, Num.Number, Int8;
    var m, x, y := Uniform(1), Operands(a, b, true, 2), Operands(a, b, false, 2);
    BanksAre();
    hide Uniform;
    Ones();
    SmallInt8();
    CounterIs(x, m, env);
    CounterIs(y, m, env);
    CountUpEffect(x, m);
    CountUpEffect(y, m);
    assert Exec(50, Coded(50, x), m, env).reg[Index(a)] == 0 && Exec(50, Coded(50, y), m, env).reg[Index(a)] == 1;
    assert Differs(50, a, b, 2, m, env);
  }

  lemma CtdMatters(a: bv8, b: bv8, env: Env)
    ensures Matters(51, a, b, env)
  {
    hide Exec, Coded, CountUp, CountDown, CountUpDown, Num.Word, Num.Number, Int8;
    var m, x, y := Uniform(1), Operands(a, b, true, 7), Operands(a, b, false, 7);
    BanksAre();
    hide Uniform;
    Ones();
    SmallInt8();
    CounterIs(x, m, env);
    CounterIs(y, m, env);
    CountDownEffect(x, m);
    CountDownEffect(y, m);
    assert Exec(51, Coded(51, x), m, env).reg[Index(a)] == 1 && Exec(51, Coded(51, y), m, env).reg[Index(a)] == 0;
    assert Differs(51, a, b, 7, m, env);
  }

  // ------------------------------------------------------------------
  // LIMIT, memory words, jumps, EXIT
  // ------------------------------------------------------------------

  lemma LimitDiffers()
    ensures Limit(1, 1, 0) != Limit(1, 1, 1)
  {
  }

  lemma LimitMatters(a: bv8, b: bv8, env: Env)
    ensures Matters(53, a, b, env)
  {
    hide Exec, Coded, Num.Word, Num.Number, Int8, Limit;
    var m, x, y := Uniform(1), Operands(a, b, true, 0), Operands(a, b, false, 0);
    hide Uniform;
    Ones();
    SmallInt8();
    LimitDiffers();
    LimitWords(x, m, env);
    LimitWords(y, m, env);
    assert Exec(53, Coded(53, x), m, env).reg[Index(a)] != Exec(53, Coded(53, y), m, env).reg[Index(a)];
    assert Differs(53, a, b, 0, m, env);
  }

  lemma MemoryWord()
    ensures WordOrZero(MEMORY, 1) != 0 && WordOrZero(MEMORY, 5) == 0
  {
  }

  lemma MuxMatters(a: bv8, b: bv8, env: Env)
    ensures Matters(55, a, b, env)
  {
    hide Exec, Coded, Num.Word, Num.Number, Int8, WordOrZero;
    var m, x, y := Uniform(1), Operands(a, b, true, 0), Operands(a, b, false, 0);
    assert m.mem == MEMORY;
    hide Uniform;
    Ones();
    SmallInt8();
    MemoryWord();
    MuxWord(x, m, env);
    MuxWord(y, m, env);
    assert Exec(55, Coded(55, x), m, env).reg[Index(a)] != Exec(55, Coded(55, y), m, env).reg[Index(a)];
    assert Differs(55, a, b, 0, m, env);
  }

  lemma StoredByte()
    ensures LittleEndian(1)[0] == 1
  {
  }

  lemma DemuxMatters(a: bv8, b: bv8, env: Env)
    ensures Matters(61, a, b, env)
  {
    hide Exec, Coded, Num.Word, Num.Number, Int8, LittleEndian;
    var m, x, y := Uniform(1), Operands(a, b, true, 0), Operands(a, b, false, 0);
    assert m.mem == MEMORY;
    hide Uniform;
    Ones();
    SmallInt8();
    StoredByte();
    StoreWords(x, m, env);
    StoreWords(y, m, env);
    assert Exec(61, Coded(61, x), m, env).mem[1] == 1 && Exec(61, Coded(61, y), m, env).mem[1] == 65;
    assert Differs(61, a, b, 0, m, env);
  }

  lemma JumpMatters(op: nat, a: bv8, b: bv8, env: Env)
    requires 62 <= op <= 64
    ensures Matters(op, a, b, env)
  {
    hide Exec, Coded, Num.Word, Num.Number, Int8;
    var v: bv32 := if op == 64 then 0 else 1;
    var m, x, y := Uniform(v), Operands(a, b, true, 4), Operands(a, b, false, 4);
    hide Uniform;
    Ones();
    SmallInt8();
    JumpWords(op, x, m, env);
    JumpWords(op, y, m, env);
    assert Exec(op, Coded(op, x), m, env).pc == 4 && Exec(op, Coded(op, y), m, env).pc == Num.Number(v);
    assert Differs(op, a, b, 4, m, env);
  }

  /** Some byte below 2 other than a given one. */
  function Other(a: bv8): (c: bv8)
    ensures c != a && c as nat != a as nat && c as nat < 2
  {
    if a == 0 then 1 else 0
  }

  lemma ExitMatters(a: bv8, b: bv8, env: Env)
    ensures Matters(65, a, b, env)
  {
    hide Exec, Coded;
    var c := Other(a);
    var m, x, y := Uniform(1), Operands(a, b, true, c), Operands(a, b, false, c);
    hide Uniform;
    EndWords(x, m, env);
    EndWords(y, m, env);
    assert Exec(65, Coded(65, x), m, env).exitCode != Exec(65, Coded(65, y), m, env).exitCode;
    assert Differs(65, a, b, c, m, env);
  }

  // ------------------------------------------------------------------
  // Edges and latches
  // ------------------------------------------------------------------

  lemma StoredElsewhere(op: nat, b: Banks)
    requires b.Valid() && 56 <= op <= 58 && !b.rising[0] && !b.falling[0] && !b.both[0]
    ensures EdgeStored(op, b, 0, true) != EdgeStored(op, b, 1, true)
  {
    var x, y := EdgeStored(op, b, 0, true), EdgeStored(op, b, 1, true);
    assert x.rising[0] != y.rising[0] || x.falling[0] != y.falling[0] || x.both[0] != y.both[0];
  }

  lemma EdgeMatters(op: nat, a: bv8, b: bv8, env: Env)
    requires 56 <= op <= 58
    ensures Matters(op, a, b, env)
  {
    hide Exec, Coded, Edge, EdgeStored, EdgeSeen, Num.Number;
    var m, x, y := Uniform(1), Operands(a, b, true, 0), Operands(a, b, false, 0);
    BanksAre();
    hide Uniform;
    Ones();
    StoredElsewhere(op, m.banks);
    EdgeIs(op, x, m, env);
    EdgeIs(op, y, m, env);
    EdgeEffect(op, x, m);
    EdgeEffect(op, y, m);
    assert Exec(op, Coded(op, x), m, env).banks != Exec(op, Coded(op, y), m, env).banks;
    assert Differs(op, a, b, 0, m, env);
  }

  /** The latches after a call with both inputs on. */
  function Latched(op: nat, b: Banks, id: nat): (r: Banks)
    requires b.Valid()
    ensures r.Valid()
  {
    if id >= MAX_TIMERS then b else if op == 59 then b.(rs := b.rs[id := false]) else b.(sr := b.sr[id := true])
  }

  lemma LatchedBanks(op: nat, x: Operands, m: Machine, env: Env)
    requires (op == 59 || op == 60) && m.Valid() && m.reg[Index(x.b)] != 0 && m.reg[Index(x.c)] != 0
    ensures Exec(op, Coded(op, x), m, env).banks == Latched(op, m.banks, LatchId(x))
  {
    hide Exec, Coded, Latch, RegA, RegB, RegC, HasImm, FieldC, Flag;
    CodedFields(op, x);
    LatchIs(op, x, m, env);
    LatchFields(op, Coded(op, x), Index(x.a), Index(x.b), Index(x.c), x.imm, m);
  }

  lemma LatchedElsewhere(op: nat, b: Banks, i: nat, j: nat)
    requires (op == 59 || op == 60) && b.Valid() && i < MAX_TIMERS && i != j && b.rs[i] && !b.sr[i]
    ensures Latched(op, b, i) != Latched(op, b, j)
  {
    var p, q := Latched(op, b, i), Latched(op, b, j);
    assert if op == 59 then p.rs[i] != q.rs[i] else p.sr[i] != q.sr[i];
  }

  lemma LatchMatters(op: nat, a: bv8, b: bv8, env: Env)
    requires op == 59 || op == 60
    ensures Matters(op, a, b, env)
  {
    hide Exec, Coded, Latched;
    var c := Other(a);
    var m := Uniform(1);
    BanksAre();
    hide Uniform;
    LatchedBanks(op, Operands(a, b, true, c), m, env);
    LatchedBanks(op, Operands(a, b, false, c), m, env);
    LatchedElsewhere(op, m.banks, c as nat, a as nat);
    assert Differs(op, a, b, c, m, env);
  }

  // ------------------------------------------------------------------
  // The policy
  // ------------------------------------------------------------------

  lemma WhereItMatters(op: nat, a: bv8, b: bv8, env: Env)
    requires op < OPCODES && !IsExternal(op) && !Unary(op)
    ensures Matters(op, a, b, env)
  {
    hide Matters;
    if SomeAlu(op) {
      AluMatters(op, a, b, env);
    } else if 41 <= op <= 46 {
      EditMatters(op, a, b, env);
    } else if op <= 49 {
      TimerMatters(if op == 47 then TON else if op == 48 then TOF else TP, a, b, env);
    } else if 62 <= op <= 64 {
      JumpMatters(op, a, b, env);
    } else if 56 <= op <= 58 {
      EdgeMatters(op, a, b, env);
    } else if 59 <= op <= 60 {
      LatchMatters(op, a, b, env);
    } else {
      match op
      case 50 => CtuMatters(a, b, env);
      case 51 => CtdMatters(a, b, env);
      case 53 => LimitMatters(a, b, env);
      case 55 => MuxMatters(a, b, env);
      case 61 => DemuxMatters(a, b, env);
      case 65 => ExitMatters(a, b, env);
    }
  }

  /** The table of converter.c against the handlers: for every instruction of the model an immediate is
      allowed exactly where it can make a difference. Of the handlers outside the model EXPT alone takes one. */
  lemma PolicyIff(op: nat, a: bv8, b: bv8, env: Env)
    requires op < OPCODES
    ensures AllowsImm(op) <==> if IsExternal(op) then op == 5 else Matters(op, a, b, env)
  {
    hide Exec, Coded;
    if !IsExternal(op) {
      if Unary(op) {
        forall m: Machine, c: bv8 | m.Valid()
          ensures !Differs(op, a, b, c, m, env)
        {
          NoDifference(op, a, b, c, m, env);
        }
      } else {
        hide Matters;
        WhereItMatters(op, a, b, env);
      }
    }
  }

  /** On the text: a line with an immediate in range is accepted exactly where the immediate matters, and
      then it is the word of its fields. */
  lemma AcceptedIff(op: nat, name: string, s: string, l: char, a: bv8, t: string, b: bv8, u: string, c: bv8, env: Env)
    requires op < OPCODES && SameName(TableName(op), name)
    requires WrittenLines.RegLetter(l) && WrittenLines.Separates(s) && WrittenLines.Separates(t) && WrittenLines.Separates(u)
    ensures var ra, rb, third := WrittenLines.RegText(l, a as int), WrittenLines.RegText(l, b as int), "#" + Assembler.SignedDec(Int8(c));
            Assembler.AssembleLine(WrittenLines.Text(name, s, ra, t, rb, u, third), true) ==
            if (IsExternal(op) && op == 5) || (!IsExternal(op) && Matters(op, a, b, env)) then
              Assembler.Word(Pack(op as bv8, a, b, true, c))
            else Assembler.Fails(Assembler.ImmediateNotAllowed)
  {
    hide Matters, AllowsImm, Pack, Int8, WrittenLines.Meaning, WrittenLines.Text, WrittenLines.RegText;
    hide Assembler.AssembleLine, Assembler.SignedDec, SameName, TableName, WrittenLines.Separates;
    PolicyIff(op, a, b, env);
    WrittenLines.WrittenLine(op, name, s, l, a as int, t, b as int, u, WrittenLines.Immediate(Int8(c)), true);
    WrittenLines.InRange(op, a, b, c);
  }
}
