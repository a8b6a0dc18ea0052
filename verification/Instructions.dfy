/** What the instructions mean, by mnemonic: on numbers, bits, texts and bytes, for the words the
    assembler packs. `Machine.Exec` is proved against this. */
module Instructions {
  import opened Words
  import opened Encoding
  import opened OpTable
  import opened Timers
  import opened VmStrings
  import opened Machine
  import Num = WordNumbers

  /** The operands of an instruction word. */
  datatype Operands = Operands(a: bv8, b: bv8, imm: bool, c: bv8)
  {
    /** Operand C as a word: a register, or a signed byte. */
    function CWord(m: Machine): bv32
      requires m.Valid()
    {
      if imm then Num.Word(Int8(c) % U32) else m.reg[Index(c)]
    }

    /** The values of B and C as numbers. */
    function B(m: Machine): nat
      requires m.Valid()
    {
      Num.Number(m.reg[Index(b)])
    }

    function C(m: Machine): nat
      requires m.Valid()
    {
      if imm then Int8(c) % U32 else Num.Number(m.reg[Index(c)])
    }
  }

  /** A register number. */
  function Index(r: bv8): (i: nat) ensures i < REG_COUNT { r as nat }

  /** The machine after the instruction with a mnemonic. */
  function Run(name: string, x: Operands, m: Machine, env: Env): Machine
    requires m.Valid() && OpFrom(name, 0) >= 0
  {
    Exec(OpFrom(name, 0), Pack(OpFrom(name, 0) as bv8, x.a, x.b, x.imm, x.c), m, env)
  }

  /** The instruction puts a word into register A and does nothing else. */
  predicate Puts(name: string, x: Operands, m: Machine, env: Env, v: bv32)
    requires m.Valid()
  {
    OpFrom(name, 0) >= 0 && Run(name, x, m, env) == m.(reg := m.reg[Index(x.a) := v])
  }

  /** The same, with the word as a number. */
  predicate Yields(name: string, x: Operands, m: Machine, env: Env, n: int)
    requires m.Valid()
  {
    0 <= n < U32 && Puts(name, x, m, env, Num.Word(n))
  }

  // ------------------------------------------------------------------
  // Fields and operands
  // ------------------------------------------------------------------

  lemma Fields(op: nat, x: Operands)
    requires op < OPCODES
    ensures var w := Pack(op as bv8, x.a, x.b, x.imm, x.c);
            && Opcode(w) as nat == op && RegA(w) == Index(x.a) && RegB(w) == Index(x.b) && RegC(w) == Index(x.c)
            && HasImm(w) == x.imm && FieldC(w) == x.c
  {
    SmallByte(op);
    FieldsOfPack(op as bv8, x.a, x.b, x.imm, x.c);
    hide Pack, Opcode, FieldA, FieldB, FieldC, HasImm;
  }

  lemma LowByte(c: bv8)
    ensures Num.Number(c as bv32) == c as nat < 256
  {
  }

  lemma ByteDifference(c: bv32)
    requires 0 < Num.Number(c) < 0x100
    ensures Num.Number(Num.Difference(0, Num.Difference(0x100, c))) == U32 - 0x100 + Num.Number(c)
  {
    hide Num.Number, Num.Difference;
    Num.DifferenceNumber(0x100, c);
    Num.DifferenceNumber(0, Num.Difference(0x100, c));
    Constants();
  }

  lemma Constants()
    ensures Num.Number(0x100) == 0x100 && Num.Number(0) == 0 && Num.Number(1) == 1
  {
  }

  lemma ExtendedNumber(c: bv8)
    ensures Num.Number(SignExtend(c as bv32)) == Int8(c) % U32
  {
    LowByte(c);
    if c < 0x80 {
      ExtendedLow(c);
      ByteLow(c);
      hide SignExtend;
    } else {
      ByteHigh(c);
      ExtendedDifference(c);
      ByteDifference(c as bv32);
      hide SignExtend, Num.Number, Num.Difference;
    }
  }

  lemma ExtendedDifference(c: bv8)
    requires c >= 0x80
    ensures SignExtend(c as bv32) == Num.Difference(0, Num.Difference(0x100, c as bv32))
  {
    ExtendedHigh(c);
    hide SignExtend;
  }

  /** Operand C of the code is the operand here. */
  lemma Third(op: nat, x: Operands, m: Machine)
    requires op < OPCODES && m.Valid()
    ensures CValue(Pack(op as bv8, x.a, x.b, x.imm, x.c), m.reg) == x.CWord(m) && Num.Number(x.CWord(m)) == x.C(m) < U32
  {
    Fields(op, x);
    hide Pack, Opcode, FieldA, FieldB, HasImm, FieldC, RegC, SignExtend, Num.Number, Num.Word;
    ExtendedNumber(x.c);
    Num.WordNumber(SignExtend(x.c as bv32));
    Num.NumberBound(m.reg[Index(x.c)]);
  }

  /** The mnemonics of the opcodes, as the assembler finds them. */
  lemma Named(op: nat)
    requires op < OPCODES
    ensures OpFrom(PrintName(op), 0) == op
  {
    NameRoundTrip(op);
  }

  // ------------------------------------------------------------------
  // Arithmetic, comparison and logic
  // ------------------------------------------------------------------

  lemma AluPuts(op: nat, x: Operands, m: Machine, env: Env)
    requires op < OPCODES && IsAlu(op) && m.Valid()
    ensures Puts(PrintName(op), x, m, env, Alu(op, m.reg[Index(x.b)], x.CWord(m)))
  {
    Fields(op, x);
    Third(op, x, m);
    Named(op);
    hide Pack, Opcode, RegA, RegB, RegC, HasImm, FieldC, CValue, Alu, OpFrom, PrintName;
  }

  lemma FromNumber(name: string, x: Operands, m: Machine, env: Env, v: bv32, n: int)
    requires m.Valid() && Puts(name, x, m, env, v) && Num.Number(v) == n
    ensures Yields(name, x, m, env, n)
  {
    hide Puts, Num.Number, Num.Word;
    Num.WordNumber(v);
  }

  lemma AluYields(op: nat, x: Operands, m: Machine, env: Env, v: bv32, n: int)
    requires op < OPCODES && IsAlu(op) && m.Valid()
    requires Alu(op, m.reg[Index(x.b)], x.CWord(m)) == v && Num.Number(v) == n
    ensures Yields(PrintName(op), x, m, env, n)
  {
    hide Puts, Yields, Alu, PrintName, Num.Number;
    AluPuts(op, x, m, env);
    FromNumber(PrintName(op), x, m, env, v, n);
  }

  lemma SumCases(b: bv32, c: bv32)
    ensures Alu(0, b, c) == Num.Sum(b, c) && Alu(1, b, c) == Num.Difference(b, c) && Alu(2, b, c) == Num.Product(b, c)
  {
    hide Num.Sum, Num.Difference, Num.Product;
  }

  lemma TimeCases(b: bv32, c: bv32)
    ensures Alu(31, b, c) == Num.Sum(b, c) && Alu(32, b, c) == Num.Difference(b, c)
  {
    hide Num.Sum, Num.Difference;
  }

  lemma SumNames()
    ensures PrintName(0) == "ADD" && PrintName(1) == "SUB" && PrintName(2) == "MUL"
  {
    hide FunctionPrinted, LogicPrinted, TimePrinted, DatePrinted, TextPrinted, EditPrinted, BlockPrinted, EdgePrinted;
    hide LatchPrinted, ControlPrinted, TableName, Capitals, Identifies;
  }

  lemma TimeNames()
    ensures PrintName(31) == "ADD_TIME" && PrintName(32) == "SUB_TIME"
  {
    hide ArithmeticPrinted, FunctionPrinted, LogicPrinted, DatePrinted, TextPrinted, EditPrinted, BlockPrinted;
    hide EdgePrinted, LatchPrinted, ControlPrinted, TableName, Capitals, Identifies;
  }

  /** Sum, difference and product are those of the numbers, modulo 2^32. */
  lemma Sums(x: Operands, m: Machine, env: Env)
    requires m.Valid()
    ensures Yields("ADD", x, m, env, (x.B(m) + x.C(m)) % U32)
    ensures Yields("SUB", x, m, env, (x.B(m) - x.C(m)) % U32)
    ensures Yields("MUL", x, m, env, x.B(m) * x.C(m) % U32)
  {
    hide Alu, PrintName, Yields, Num.Number, Num.Sum, Num.Difference, Num.Product, Pack, CValue;
    var b, c := m.reg[Index(x.b)], x.CWord(m);
    Third(0, x, m);
    SumCases(b, c);
    SumNames();
    Num.SumNumber(b, c);
    Num.DifferenceNumber(b, c);
    Num.ProductNumber(b, c);
    AluYields(0, x, m, env, Num.Sum(b, c), (x.B(m) + x.C(m)) % U32);
    AluYields(1, x, m, env, Num.Difference(b, c), (x.B(m) - x.C(m)) % U32);
    AluYields(2, x, m, env, Num.Product(b, c), x.B(m) * x.C(m) % U32);
  }

  /** And so for times. */
  lemma TimeSums(x: Operands, m: Machine, env: Env)
    requires m.Valid()
    ensures Yields("ADD_TIME", x, m, env, (x.B(m) + x.C(m)) % U32)
    ensures Yields("SUB_TIME", x, m, env, (x.B(m) - x.C(m)) % U32)
  {
    hide Alu, PrintName, Yields, Num.Number, Num.Sum, Num.Difference, Pack, CValue;
    var b, c := m.reg[Index(x.b)], x.CWord(m);
    Third(31, x, m);
    TimeCases(b, c);
    TimeNames();
    Num.SumNumber(b, c);
    Num.DifferenceNumber(b, c);
    AluYields(31, x, m, env, Num.Sum(b, c), (x.B(m) + x.C(m)) % U32);
    AluYields(32, x, m, env, Num.Difference(b, c), (x.B(m) - x.C(m)) % U32);
  }

  lemma DivisionCases(b: bv32, c: bv32)
    ensures Alu(3, b, c) == Quotient(b, c) && Alu(4, b, c) == Remainder(b, c) && Alu(6, b, c) == Magnitude(b)
  {
    hide Quotient, Remainder, Magnitude;
  }

  lemma DivisionNames()
    ensures PrintName(3) == "DIV" && PrintName(4) == "MOD" && PrintName(6) == "ABS"
  {
    hide FunctionPrinted, LogicPrinted, TimePrinted, DatePrinted, TextPrinted, EditPrinted, BlockPrinted, EdgePrinted;
    hide LatchPrinted, ControlPrinted, TableName, Capitals, Identifies;
  }

  lemma DivisionNumbers(b: bv32, c: bv32)
    ensures var n, d := Num.Number(b), Num.Number(c);
            && Num.Number(Quotient(b, c)) == (if d == 0 then 0 else n / d)
            && Num.Number(Remainder(b, c)) == (if d == 0 then 0 else n % d)
  {
    hide Num.Number, Num.Word;
    Constants();
    if c != 0 {
      Num.DivisionFits(b, c);
      Num.NumberWord(Num.Ratio(Num.Number(b), Num.Number(c)));
      Num.NumberWord(Num.Rest(Num.Number(b), Num.Number(c)));
    }
  }

  /** Division by zero gives zero, twice. */
  lemma Divisions(x: Operands, m: Machine, env: Env)
    requires m.Valid()
    ensures Yields("DIV", x, m, env, if x.C(m) == 0 then 0 else x.B(m) / x.C(m))
    ensures Yields("MOD", x, m, env, if x.C(m) == 0 then 0 else x.B(m) % x.C(m))
  {
    hide Alu, PrintName, Yields, Num.Number, Quotient, Remainder, Pack, CValue;
    var b, c := m.reg[Index(x.b)], x.CWord(m);
    Third(3, x, m);
    DivisionCases(b, c);
    DivisionNames();
    DivisionNumbers(b, c);
    AluYields(3, x, m, env, Quotient(b, c), if x.C(m) == 0 then 0 else x.B(m) / x.C(m));
    AluYields(4, x, m, env, Remainder(b, c), if x.C(m) == 0 then 0 else x.B(m) % x.C(m));
  }

  lemma MagnitudeCases(b: bv32)
    ensures Magnitude(b) == if Num.SignBit(b) then Num.Difference(0, b) else b
  {
  }

  lemma MagnitudeNumber(b: bv32)
    ensures var v := Num.Signed(b); Num.Number(Magnitude(b)) == if v < 0 then -v else v
  {
    hide Num.Number, Magnitude, Num.Difference, Num.SignBit;
    MagnitudeCases(b);
    Num.SignBitSigned(b);
    Num.DifferenceNumber(0, b);
    Constants();
    Num.NumberBound(b);
  }

  /** ABS is the magnitude of the two's complement number: 2^31 for -2^31. */
  lemma Absolute(x: Operands, m: Machine, env: Env)
    requires m.Valid()
    ensures var v := Num.Signed(m.reg[Index(x.b)]); Yields("ABS", x, m, env, if v < 0 then -v else v)
  {
    hide Alu, PrintName, Yields, Num.Number, Magnitude;
    var b, c := m.reg[Index(x.b)], x.CWord(m);
    DivisionCases(b, c);
    DivisionNames();
    MagnitudeNumber(b);
    AluYields(6, x, m, env, Magnitude(b), if Num.Signed(b) < 0 then -Num.Signed(b) else Num.Signed(b));
  }

  function Truth(b: bool): nat { if b then 1 else 0 }

  lemma FlagNumber(b: bool)
    ensures Num.Number(Flag(b)) == Truth(b)
  {
    hide Num.Number;
    Constants();
  }

  lemma CompareCases(b: bv32, c: bv32)
    ensures Alu(21, b, c) == Flag(b == c) && Alu(22, b, c) == Flag(b != c)
    ensures Alu(23, b, c) == Flag(Num.Below(c, b)) && Alu(24, b, c) == Flag(!Num.Below(b, c))
    ensures Alu(25, b, c) == Flag(Num.Below(b, c)) && Alu(26, b, c) == Flag(!Num.Below(c, b))
  {
    hide Flag;
  }

  lemma CompareNames()
    ensures PrintName(21) == "EQ" && PrintName(22) == "NE" && PrintName(23) == "GT"
    ensures PrintName(24) == "GE" && PrintName(25) == "LT" && PrintName(26) == "LE"
  {
    hide ArithmeticPrinted, FunctionPrinted, TimePrinted, DatePrinted, TextPrinted, EditPrinted, BlockPrinted;
    hide EdgePrinted, LatchPrinted, ControlPrinted, TableName, Capitals, Identifies;
  }

  /** The comparisons are those of the unsigned numbers. */
  lemma Comparisons(x: Operands, m: Machine, env: Env)
    requires m.Valid()
    ensures Yields("EQ", x, m, env, Truth(x.B(m) == x.C(m))) && Yields("NE", x, m, env, Truth(x.B(m) != x.C(m)))
    ensures Yields("GT", x, m, env, Truth(x.B(m) > x.C(m))) && Yields("GE", x, m, env, Truth(x.B(m) >= x.C(m)))
    ensures Yields("LT", x, m, env, Truth(x.B(m) < x.C(m))) && Yields("LE", x, m, env, Truth(x.B(m) <= x.C(m)))
  {
    hide Alu, PrintName, Yields, Num.Number, Num.Below, Flag, Pack, CValue;
    var b, c := m.reg[Index(x.b)], x.CWord(m);
    Third(21, x, m);
    CompareCases(b, c);
    CompareNames();
    Num.BelowNumber(b, c);
    Num.BelowNumber(c, b);
    FlagNumber(true);
    FlagNumber(false);
    if x.B(m) == x.C(m) {
      Num.SameNumber(b, c);
    }
    AluYields(21, x, m, env, Flag(b == c), Truth(x.B(m) == x.C(m)));
    AluYields(22, x, m, env, Flag(b != c), Truth(x.B(m) != x.C(m)));
    AluYields(23, x, m, env, Flag(Num.Below(c, b)), Truth(x.B(m) > x.C(m)));
    AluYields(24, x, m, env, Flag(!Num.Below(b, c)), Truth(x.B(m) >= x.C(m)));
    AluYields(25, x, m, env, Flag(Num.Below(b, c)), Truth(x.B(m) < x.C(m)));
    AluYields(26, x, m, env, Flag(!Num.Below(c, b)), Truth(x.B(m) <= x.C(m)));
  }

  /** Register A after the instruction. */
  function Result(name: string, x: Operands, m: Machine, env: Env): bv32
    requires m.Valid() && OpFrom(name, 0) >= 0
  {
    ExecValid(OpFrom(name, 0), Pack(OpFrom(name, 0) as bv8, x.a, x.b, x.imm, x.c), m, env);
    Run(name, x, m, env).reg[Index(x.a)]
  }

  lemma PutsResult(name: string, x: Operands, m: Machine, env: Env, v: bv32)
    requires m.Valid() && Puts(name, x, m, env, v)
    ensures OpFrom(name, 0) >= 0 && Result(name, x, m, env) == v
  {
    hide OpFrom, Exec, Pack;
  }

  lemma LogicCases(b: bv32, c: bv32)
    ensures Alu(17, b, c) == And(b, c) && Alu(18, b, c) == Or(b, c) && Alu(19, b, c) == ExclusiveOr(b, c) && Alu(20, b, c) == Not(b)
  {
    hide And, Or, ExclusiveOr, Not;
  }

  lemma LogicNames()
    ensures PrintName(17) == "AND" && PrintName(18) == "OR" && PrintName(19) == "XOR" && PrintName(20) == "NOT"
  {
    hide ArithmeticPrinted, FunctionPrinted, TimePrinted, DatePrinted, TextPrinted, EditPrinted, BlockPrinted;
    hide EdgePrinted, LatchPrinted, ControlPrinted, TableName, Capitals, Identifies;
  }

  lemma AndOrBit(b: bv32, c: bv32, i: bv6)
    requires i < 32
    ensures Num.Bit(And(b, c), i) <==> Num.Bit(b, i) && Num.Bit(c, i)
    ensures Num.Bit(Or(b, c), i) <==> Num.Bit(b, i) || Num.Bit(c, i)
  {
    hide Num.Bit;
    Num.AndBit(b, c, i);
    Num.OrBit(b, c, i);
  }

  lemma XorNotBit(b: bv32, c: bv32, i: bv6)
    requires i < 32
    ensures Num.Bit(ExclusiveOr(b, c), i) <==> Num.Bit(b, i) != Num.Bit(c, i)
    ensures Num.Bit(Not(b), i) <==> !Num.Bit(b, i)
  {
    hide Num.Bit;
    Num.XorBit(b, c, i);
    Num.NotBit(b, i);
  }

  /** The logic instructions work bit by bit and change nothing but register A. */
  lemma Logic(x: Operands, m: Machine, env: Env, i: bv6)
    requires m.Valid() && i < 32
    ensures OpFrom("AND", 0) >= 0 && OpFrom("OR", 0) >= 0 && OpFrom("XOR", 0) >= 0 && OpFrom("NOT", 0) >= 0
    ensures var b, c := m.reg[Index(x.b)], x.CWord(m);
            && (Num.Bit(Result("AND", x, m, env), i) <==> Num.Bit(b, i) && Num.Bit(c, i))
            && (Num.Bit(Result("OR", x, m, env), i) <==> Num.Bit(b, i) || Num.Bit(c, i))
            && (Num.Bit(Result("XOR", x, m, env), i) <==> Num.Bit(b, i) != Num.Bit(c, i))
            && (Num.Bit(Result("NOT", x, m, env), i) <==> !Num.Bit(b, i))
    ensures Puts("AND", x, m, env, Result("AND", x, m, env)) && Puts("OR", x, m, env, Result("OR", x, m, env))
    ensures Puts("XOR", x, m, env, Result("XOR", x, m, env)) && Puts("NOT", x, m, env, Result("NOT", x, m, env))
  {
    hide Alu, PrintName, Puts, Num.Bit, And, Or, ExclusiveOr, Not, Result, OpFrom;
    var b, c := m.reg[Index(x.b)], x.CWord(m);
    LogicCases(b, c);
    LogicNames();
    AndOrBit(b, c, i);
    XorNotBit(b, c, i);
    AluPuts(17, x, m, env);
    AluPuts(18, x, m, env);
    AluPuts(19, x, m, env);
    AluPuts(20, x, m, env);
    PutsResult("AND", x, m, env, And(b, c));
    PutsResult("OR", x, m, env, Or(b, c));
    PutsResult("XOR", x, m, env, ExclusiveOr(b, c));
    PutsResult("NOT", x, m, env, Not(b));
  }
}
