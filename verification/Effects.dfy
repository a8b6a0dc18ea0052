/** What the other instructions mean, by mnemonic: strings, memory words, timers, counters, edges, latches,
    jumps and the end of a program. */
module Effects {
  import opened Words
  import opened Encoding
  import opened OpTable
  import opened Timers
  import opened VmStrings
  import opened Machine
  import opened Instructions
  import MachineLaws
  import Num = WordNumbers

  /** The word of an instruction. */
  function Coded(op: nat, x: Operands): bv32
    requires op < OPCODES
  {
    SmallByte(op);
    Pack(op as bv8, x.a, x.b, x.imm, x.c)
  }

  lemma CodedFields(op: nat, x: Operands)
    requires op < OPCODES
    ensures var w := Coded(op, x);
            && RegA(w) == Index(x.a) && RegB(w) == Index(x.b) && RegC(w) == Index(x.c) && HasImm(w) == x.imm && FieldC(w) == x.c
  {
    hide RegA, RegB, RegC, HasImm, FieldC;
    Fields(op, x);
  }

  lemma CodedThird(op: nat, x: Operands, m: Machine)
    requires op < OPCODES && m.Valid()
    ensures CValue(Coded(op, x), m.reg) == x.CWord(m) && Num.Number(x.CWord(m)) == x.C(m)
  {
    hide CValue, Num.Number;
    Third(op, x, m);
  }

  lemma Runs(op: nat, name: string, x: Operands, m: Machine, env: Env)
    requires op < OPCODES && m.Valid() && PrintName(op) == name
    ensures OpFrom(name, 0) == op && Run(name, x, m, env) == Exec(op, Coded(op, x), m, env)
  {
    hide Exec, PrintName, OpFrom, Pack;
    Named(op);
  }

  // ------------------------------------------------------------------
  // Jumps and ends
  // ------------------------------------------------------------------

  lemma ControlNames()
    ensures PrintName(62) == "JMP" && PrintName(63) == "JMP_IF" && PrintName(64) == "JMP_IF_NOT"
    ensures PrintName(65) == "EXIT" && PrintName(66) == "HALT" && PrintName(67) == "NOP"
  {
    hide ArithmeticPrinted, FunctionPrinted, LogicPrinted, TimePrinted, DatePrinted, TextPrinted, EditPrinted;
    hide BlockPrinted, EdgePrinted, LatchPrinted, TableName, Capitals, Identifies;
  }

  /** Where a taken jump goes: to the signed immediate modulo 2^32, or to the number in register B. */
  function Target(x: Operands, m: Machine): Uint32
    requires m.Valid()
  {
    if x.imm then Int8(x.c) % U32 else Num.Number(m.reg[Index(x.b)])
  }

  lemma JumpTarget(op: nat, x: Operands, m: Machine)
    requires m.Valid() && 62 <= op <= 64
    ensures var t := m.reg[Index(x.c)] != 0;
            Jump(op, Coded(op, x), m) == if op == 62 || (op == 63 && t) || (op == 64 && !t) then Target(x, m) else m.pc
  {
    hide Coded, RegA, RegB, RegC, HasImm, FieldC, SignExtend, Int8;
    CodedFields(op, x);
    ExtendedNumber(x.c);
  }

  lemma JumpWords(op: nat, x: Operands, m: Machine, env: Env)
    requires m.Valid() && 62 <= op <= 64
    ensures var t := m.reg[Index(x.c)] != 0;
            Exec(op, Coded(op, x), m, env) == if op == 62 || (op == 63 && t) || (op == 64 && !t) then m.(pc := Target(x, m)) else m
  {
    hide Exec, Coded, Jump, Target;
    MachineLaws.JumpSets(op, Coded(op, x), m, env);
    JumpTarget(op, x, m);
  }

  /** The jumps are absolute; the two conditional ones read register C, of which the immediate is the number. */
  lemma Jumps(x: Operands, m: Machine, env: Env)
    requires m.Valid()
    ensures OpFrom("JMP", 0) >= 0 && OpFrom("JMP_IF", 0) >= 0 && OpFrom("JMP_IF_NOT", 0) >= 0
    ensures Run("JMP", x, m, env) == m.(pc := Target(x, m))
    ensures Run("JMP_IF", x, m, env) == if m.reg[Index(x.c)] != 0 then m.(pc := Target(x, m)) else m
    ensures Run("JMP_IF_NOT", x, m, env) == if m.reg[Index(x.c)] == 0 then m.(pc := Target(x, m)) else m
  {
    hide Exec, PrintName, Run, Coded, Target;
    ControlNames();
    Runs(62, "JMP", x, m, env);
    Runs(63, "JMP_IF", x, m, env);
    Runs(64, "JMP_IF_NOT", x, m, env);
    JumpWords(62, x, m, env);
    JumpWords(63, x, m, env);
    JumpWords(64, x, m, env);
  }

  lemma EndWords(x: Operands, m: Machine, env: Env)
    requires m.Valid()
    ensures Exec(65, Coded(65, x), m, env) == m.(exitCode := if x.imm then x.c as int else x.a as int, running := false, stop := true)
    ensures Exec(66, Coded(66, x), m, env) == m.(running := false, stop := true)
    ensures Exec(67, Coded(67, x), m, env) == m
  {
    hide Coded, RegA, RegB, RegC, HasImm, FieldC, Jump, Alu, Edit, Selected, CValue, Demux, TimerOp, CountUp;
    hide CountDown, CountUpDown, Edge, Latch, SetA;
    CodedFields(65, x);
  }

  /** EXIT takes its code from the immediate, unsigned, or else from the number of register A. */
  lemma Ends(x: Operands, m: Machine, env: Env)
    requires m.Valid()
    ensures OpFrom("EXIT", 0) >= 0 && OpFrom("HALT", 0) >= 0 && OpFrom("NOP", 0) >= 0
    ensures Run("EXIT", x, m, env) == m.(exitCode := if x.imm then x.c as int else x.a as int, running := false, stop := true)
    ensures Run("HALT", x, m, env) == m.(running := false, stop := true)
    ensures Run("NOP", x, m, env) == m
  {
    hide Exec, PrintName, Run, Coded;
    ControlNames();
    Runs(65, "EXIT", x, m, env);
    Runs(66, "HALT", x, m, env);
    Runs(67, "NOP", x, m, env);
    EndWords(x, m, env);
  }

  // ------------------------------------------------------------------
  // Handlers outside the model
  // ------------------------------------------------------------------

  /** libm and the clock are asked with the opcode, the operands and the instruction count; the answer
      goes to register A. */
  lemma External(op: nat, x: Operands, m: Machine, env: Env)
    requires m.Valid() && op < OPCODES && IsExternal(op)
    ensures Puts(PrintName(op), x, m, env, env(op, m.reg[Index(x.b)], x.CWord(m), m.executed))
  {
    hide Coded, RegA, RegB, RegC, HasImm, FieldC, CValue, PrintName, OpFrom;
    CodedFields(op, x);
    CodedThird(op, x, m);
    Runs(op, PrintName(op), x, m, env);
  }

  /** Which number is asked for which function. */
  lemma FunctionNumbers()
    ensures PrintName(5) == "EXPT" && PrintName(7) == "SQRT" && PrintName(8) == "LN" && PrintName(9) == "LOG" && PrintName(10) == "EXP"
    ensures PrintName(11) == "SIN" && PrintName(12) == "COS" && PrintName(13) == "TAN"
    ensures PrintName(14) == "ASIN" && PrintName(15) == "ACOS" && PrintName(16) == "ATAN"
  {
    hide LogicPrinted, TimePrinted, DatePrinted, TextPrinted, EditPrinted, BlockPrinted, EdgePrinted, LatchPrinted;
    hide ControlPrinted, TableName, Capitals, Identifies;
  }

  lemma ClockNumbers()
    ensures PrintName(27) == "TIME" && PrintName(28) == "DATE" && PrintName(29) == "TOD" && PrintName(30) == "DT"
    ensures PrintName(33) == "YEAR" && PrintName(34) == "MONTH" && PrintName(35) == "DAY"
    ensures PrintName(36) == "HOUR" && PrintName(37) == "MINUTE" && PrintName(38) == "SECOND"
  {
    hide ArithmeticPrinted, FunctionPrinted, LogicPrinted, TextPrinted, EditPrinted, BlockPrinted, EdgePrinted;
    hide LatchPrinted, ControlPrinted, TableName, Capitals, Identifies;
  }

  // ------------------------------------------------------------------
  // Strings
  // ------------------------------------------------------------------

  lemma StringNames()
    ensures PrintName(39) == "LEN" && PrintName(40) == "CONCAT" && PrintName(41) == "LEFT" && PrintName(42) == "RIGHT"
    ensures PrintName(43) == "MID" && PrintName(44) == "INSERT" && PrintName(45) == "DELETE" && PrintName(46) == "REPLACE"
  {
    hide ArithmeticPrinted, FunctionPrinted, LogicPrinted, TimePrinted, DatePrinted, BlockPrinted, EdgePrinted;
    hide LatchPrinted, ControlPrinted, TableName, Capitals, Identifies;
  }

  lemma EditWords(op: nat, x: Operands, m: Machine, env: Env)
    requires m.Valid() && IsEdit(op)
    ensures Exec(op, Coded(op, x), m, env) ==
            m.(mem := EditBytes(op, m.mem, Num.Number(m.reg[Index(x.a)]), x.B(m), Num.Number(m.reg[Index(x.c)]), x.C(m)))
  {
    hide Coded, RegA, RegB, RegC, HasImm, FieldC, CValue, EditBytes;
    CodedFields(op, x);
    CodedThird(op, x, m);
  }

  lemma EditRuns(op: nat, name: string, x: Operands, m: Machine, env: Env, r: Bytes)
    requires m.Valid() && IsEdit(op) && PrintName(op) == name
    requires r == EditBytes(op, m.mem, Num.Number(m.reg[Index(x.a)]), x.B(m), Num.Number(m.reg[Index(x.c)]), x.C(m))
    ensures Edits(name, x, m, env, r)
  {
    hide Exec, PrintName, Run, Coded, EditBytes, Num.Number, OpFrom;
    Runs(op, name, x, m, env);
    EditWords(op, x, m, env);
  }

  /** The instruction leaves this memory and changes nothing else. */
  predicate Edits(name: string, x: Operands, m: Machine, env: Env, r: Bytes)
    requires m.Valid()
  {
    OpFrom(name, 0) >= 0 && Run(name, x, m, env) == m.(mem := r)
  }

  /** The string instructions that copy or cut: which edit each mnemonic is, and where it takes its
      addresses and counts from. */
  lemma Cuts(x: Operands, m: Machine, env: Env)
    requires m.Valid()
    ensures Edits("CONCAT", x, m, env, Concat(m.mem, x.B(m), Num.Number(m.reg[Index(x.c)])))
    ensures Edits("LEFT", x, m, env, Left(m.mem, x.B(m), x.C(m)))
    ensures Edits("RIGHT", x, m, env, Right(m.mem, x.B(m), x.C(m)))
    ensures Edits("MID", x, m, env, Mid(m.mem, x.B(m), x.C(m)))
  {
    hide Edits, PrintName, Concat, Left, Right, Mid, Insert, Delete, Replace, Num.Number;
    StringNames();
    EditRuns(40, "CONCAT", x, m, env, Concat(m.mem, x.B(m), Num.Number(m.reg[Index(x.c)])));
    EditRuns(41, "LEFT", x, m, env, Left(m.mem, x.B(m), x.C(m)));
    EditRuns(42, "RIGHT", x, m, env, Right(m.mem, x.B(m), x.C(m)));
    EditRuns(43, "MID", x, m, env, Mid(m.mem, x.B(m), x.C(m)));
  }

  /** The string instructions that work inside a destination, which register A points to. */
  lemma Splices(x: Operands, m: Machine, env: Env)
    requires m.Valid()
    ensures var dest := Num.Number(m.reg[Index(x.a)]);
            && Edits("INSERT", x, m, env, Insert(m.mem, dest, x.B(m), x.C(m)))
            && Edits("DELETE", x, m, env, Delete(m.mem, dest, x.B(m), x.C(m)))
            && Edits("REPLACE", x, m, env, Replace(m.mem, dest, x.B(m), x.C(m)))
  {
    hide Edits, PrintName, Concat, Left, Right, Mid, Insert, Delete, Replace, Num.Number;
    var dest := Num.Number(m.reg[Index(x.a)]);
    StringNames();
    EditRuns(44, "INSERT", x, m, env, Insert(m.mem, dest, x.B(m), x.C(m)));
    EditRuns(45, "DELETE", x, m, env, Delete(m.mem, dest, x.B(m), x.C(m)));
    EditRuns(46, "REPLACE", x, m, env, Replace(m.mem, dest, x.B(m), x.C(m)));
  }

  lemma SmallNumber(n: nat)
    requires n <= VM_MEM_BYTES
    ensures Num.Number(n as bv32) == n
  {
    Num.NumberWord(n);
  }

  lemma LengthWords(x: Operands, m: Machine, env: Env)
    requires m.Valid()
    ensures Exec(39, Coded(39, x), m, env) == m.(reg := m.reg[Index(x.a) := Length(m.mem, x.B(m))])
  {
    hide Coded, RegA, RegB, RegC, HasImm, FieldC, CValue, Length, Limit, WordOrZero;
    CodedFields(39, x);
  }

  /** LEN gives the length of the text, and 0 outside memory. */
  lemma Lengths(x: Operands, m: Machine, env: Env)
    requires m.Valid()
    ensures Yields("LEN", x, m, env, if x.B(m) < |m.mem| then |Text(m.mem, x.B(m))| else 0)
  {
    hide Exec, PrintName, Run, Coded, Num.Number, Num.Word, OpFrom, StrLen, Text;
    StringNames();
    LengthWords(x, m, env);
    Runs(39, "LEN", x, m, env);
    var n := if x.B(m) < |m.mem| then |Text(m.mem, x.B(m))| else 0;
    SmallNumber(n);
    Constants();
    FromNumber("LEN", x, m, env, Length(m.mem, x.B(m)), n);
  }

  // ------------------------------------------------------------------
  // Words of memory, and LIMIT
  // ------------------------------------------------------------------

  lemma BlockNames()
    ensures PrintName(47) == "TON" && PrintName(48) == "TOF" && PrintName(49) == "TP"
    ensures PrintName(50) == "CTU" && PrintName(51) == "CTD" && PrintName(52) == "CTUD"
    ensures PrintName(53) == "LIMIT" && PrintName(54) == "SEL" && PrintName(55) == "MUX"
  {
    hide ArithmeticPrinted, FunctionPrinted, LogicPrinted, TimePrinted, DatePrinted, TextPrinted, EditPrinted;
    hide EdgePrinted, LatchPrinted, ControlPrinted, TableName, Capitals, Identifies;
  }

  /** A word is what four bytes of memory hold, or 0 where they do not fit. */
  predicate Holds(mem: Bytes, a: nat, v: bv32) {
    if a + 4 <= |mem| then LittleEndian(v) == mem[a..a + 4] else v == 0
  }

  lemma WordHeld(mem: Bytes, a: nat)
    ensures Holds(mem, a, WordOrZero(mem, a))
  {
    hide LittleEndian, WordOf;
    if a + 4 <= |mem| {
      BytesOfWord(mem[a], mem[a + 1], mem[a + 2], mem[a + 3]);
    }
  }

  lemma SelWord(x: Operands, m: Machine, env: Env)
    requires m.Valid()
    ensures var a := Num.Number(m.reg[Index(x.c)]) + if m.reg[Index(x.b)] != 0 then 0 else 4;
            Exec(54, Coded(54, x), m, env) == m.(reg := m.reg[Index(x.a) := WordOrZero(m.mem, a)])
  {
    hide Coded, RegA, RegB, RegC, HasImm, FieldC, CValue, Length, Limit, WordOrZero, Alu, Edit, TimerOp, Demux, Jump;
    CodedFields(54, x);
  }

  lemma MuxWord(x: Operands, m: Machine, env: Env)
    requires m.Valid()
    ensures Exec(55, Coded(55, x), m, env) == m.(reg := m.reg[Index(x.a) := WordOrZero(m.mem, x.B(m) + 4 * x.C(m))])
  {
    hide Coded, RegA, RegB, RegC, HasImm, FieldC, CValue, Length, Limit, WordOrZero, Alu, Edit, TimerOp, Demux, Jump;
    CodedFields(55, x);
    CodedThird(55, x, m);
  }

  /** SEL takes the first of two words at the address in register C when register B is not zero and the
      second when it is; MUX takes the C-th word from the address in register B on. */
  lemma Loads(x: Operands, m: Machine, env: Env)
    requires m.Valid()
    ensures OpFrom("SEL", 0) >= 0 && OpFrom("MUX", 0) >= 0
    ensures var v := Result("SEL", x, m, env);
            && Puts("SEL", x, m, env, v)
            && Holds(m.mem, Num.Number(m.reg[Index(x.c)]) + (if m.reg[Index(x.b)] != 0 then 0 else 4), v)
    ensures var v := Result("MUX", x, m, env);
            Puts("MUX", x, m, env, v) && Holds(m.mem, x.B(m) + 4 * x.C(m), v)
  {
    hide Exec, PrintName, Coded, Num.Number, OpFrom, WordOrZero, Holds, Result;
    BlockNames();
    SelWord(x, m, env);
    MuxWord(x, m, env);
    Runs(54, "SEL", x, m, env);
    Runs(55, "MUX", x, m, env);
    var a, b := Num.Number(m.reg[Index(x.c)]) + (if m.reg[Index(x.b)] != 0 then 0 else 4), x.B(m) + 4 * x.C(m);
    WordHeld(m.mem, a);
    WordHeld(m.mem, b);
    PutsResult("SEL", x, m, env, WordOrZero(m.mem, a));
    PutsResult("MUX", x, m, env, WordOrZero(m.mem, b));
  }

  lemma StoreWords(x: Operands, m: Machine, env: Env)
    requires m.Valid()
    ensures var a := x.B(m) + 4 * x.C(m);
            Exec(61, Coded(61, x), m, env) == if a + 4 <= |m.mem| then m.(mem := PutWord(m.mem, a, m.reg[Index(x.a)])) else m
  {
    hide Coded, RegA, RegB, RegC, HasImm, FieldC, CValue, PutWord;
    CodedFields(61, x);
    CodedThird(61, x, m);
  }

  lemma DemuxName()
    ensures PrintName(61) == "DEMUX"
  {
    hide ArithmeticPrinted, FunctionPrinted, LogicPrinted, TimePrinted, DatePrinted, TextPrinted, EditPrinted;
    hide BlockPrinted, EdgePrinted, ControlPrinted, TableName, Capitals, Identifies;
  }

  /** DEMUX stores register A as the C-th word from the address in register B on, where it fits. */
  lemma Stores(x: Operands, m: Machine, env: Env)
    requires m.Valid()
    ensures OpFrom("DEMUX", 0) >= 0
    ensures var a, r := x.B(m) + 4 * x.C(m), Run("DEMUX", x, m, env);
            if a + 4 <= |m.mem| then
              r == m.(mem := r.mem) && |r.mem| == |m.mem| && Holds(r.mem, a, m.reg[Index(x.a)])
              && forall i :: 0 <= i < |m.mem| && !(a <= i < a + 4) ==> r.mem[i] == m.mem[i]
            else r == m
  {
    hide Exec, PrintName, Coded, Num.Number, OpFrom, LittleEndian, Run;
    DemuxName();
    StoreWords(x, m, env);
    Runs(61, "DEMUX", x, m, env);
  }

  lemma LimitWords(x: Operands, m: Machine, env: Env)
    requires m.Valid()
    ensures Exec(53, Coded(53, x), m, env) == m.(reg := m.reg[Index(x.a) := Limit(m.reg[Index(x.a)], m.reg[Index(x.b)], x.CWord(m))])
  {
    hide Coded, RegA, RegB, RegC, HasImm, FieldC, CValue, Length, Limit, WordOrZero;
    CodedFields(53, x);
    CodedThird(53, x, m);
  }

  function Minimum(x: nat, y: nat): nat { if x < y then x else y }

  function Maximum(x: nat, y: nat): nat { if x < y then y else x }

  lemma LimitNumber(v: bv32, low: bv32, high: bv32)
    ensures Num.Number(Limit(v, low, high)) == Minimum(Maximum(Num.Number(v), Num.Number(low)), Num.Number(high))
  {
    hide Num.Number, Num.Below;
    Num.BelowNumber(v, low);
    Num.BelowNumber(high, v);
    Num.BelowNumber(high, low);
  }

  /** LIMIT: at least B, and then at most C, as unsigned numbers. */
  lemma Limits(x: Operands, m: Machine, env: Env)
    requires m.Valid()
    ensures Yields("LIMIT", x, m, env, Minimum(Maximum(Num.Number(m.reg[Index(x.a)]), x.B(m)), x.C(m)))
  {
    hide Exec, PrintName, Run, Coded, Num.Number, Num.Word, OpFrom, Limit, CValue;
    BlockNames();
    LimitWords(x, m, env);
    CodedThird(53, x, m);
    Runs(53, "LIMIT", x, m, env);
    var v := Limit(m.reg[Index(x.a)], m.reg[Index(x.b)], x.CWord(m));
    LimitNumber(m.reg[Index(x.a)], m.reg[Index(x.b)], x.CWord(m));
    FromNumber("LIMIT", x, m, env, v, Num.Number(v));
  }
}
