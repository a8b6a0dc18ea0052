/** The disassembler line of debug.c and the assembler of converter.c, on text. */
module Assembler {
  import opened Words
  import opened Encoding
  import opened OpTable

  // ------------------------------------------------------------------
  // Printing
  // ------------------------------------------------------------------

  function Digit(d: nat): char
    requires d < 16
  {
    if d < 10 then '0' + d as char else 'A' + (d - 10) as char
  }

  /** `%u`. */
  function Dec(n: nat): (s: string)
    ensures s != []
  {
    if n < 10 then [Digit(n)] else Dec(n / 10) + [Digit(n % 10)]
  }

  /** `%d`. */
  function SignedDec(v: int): string {
    if v < 0 then "-" + Dec(-v) else Dec(v)
  }

  /** `%-10s`. */
  function Pad(s: string): string {
    s + seq(if |s| < 10 then 10 - |s| else 0, i => ' ')
  }

  /** `%08X`. */
  function Hex(w: bv32, digits: nat): (s: string)
    ensures |s| == digits
    decreases digits
  {
    if digits == 0 then "" else Hex(w >> 4, digits - 1) + [Digit((w & 0xF) as bv4 as nat)]
  }

  function PrintC(w: bv32): string {
    if HasImm(w) then "#" + SignedDec(Int8(FieldC(w))) else "R" + Dec(FieldC(w) as nat)
  }

  /** `fprintf_inst`. */
  function Print(w: bv32): string {
    Pad(PrintName(Opcode(w) as nat)) + " R" + Dec(FieldA(w) as nat) + ", R" + Dec(FieldB(w) as nat) + ", " + PrintC(w) +
    "  [0x" + Hex(w, 8) + "]"
  }

  // ------------------------------------------------------------------
  // Tokens
  // ------------------------------------------------------------------

  /** `isspace` in the C locale. */
  predicate IsSpace(c: char) { c == ' ' || '\t' <= c <= '\r' }

  /** The delimiters given to `strtok`. */
  predicate IsDelimiter(c: char) { c == ' ' || c == '\t' || c == ',' }

  function SkipSpace(s: string): string {
    if s != [] && IsSpace(s[0]) then SkipSpace(s[1..]) else s
  }

  /** The part of a string before the first `c`. */
  function Before(s: string, c: char): (r: string)
    ensures c !in r && |r| <= |s| && r == s[..|r|]
  {
    if s == [] || s[0] == c then [] else [s[0]] + Before(s[1..], c)
  }

  /** The length of the token at the start of a string. */
  function TokenLength(s: string): (n: nat)
    ensures n <= |s|
    ensures s != [] && !IsDelimiter(s[0]) ==> n > 0
  {
    if s == [] || IsDelimiter(s[0]) then 0 else 1 + TokenLength(s[1..])
  }

  /** All tokens, as repeated `strtok` calls give them. */
  function Tokens(s: string): seq<string> {
    if s == [] then []
    else if IsDelimiter(s[0]) then Tokens(s[1..])
    else var n := TokenLength(s); [s[..n]] + Tokens(s[n..])
  }

  // ------------------------------------------------------------------
  // Numbers
  // ------------------------------------------------------------------

  /** The value of a digit in bases up to 16, or 16. */
  function DigitValue(c: char): (v: nat)
    ensures v <= 16
  {
    if '0' <= c <= '9' then (c - '0') as nat
    else if 'a' <= c <= 'f' then (c - 'a') as nat + 10
    else if 'A' <= c <= 'F' then (c - 'A') as nat + 10
    else 16
  }

  /** How many digits of the base a string starts with. */
  function DigitCount(s: string, base: nat): (n: nat)
    ensures n <= |s|
  {
    if s != [] && DigitValue(s[0]) < base then 1 + DigitCount(s[1..], base) else 0
  }

  function NumberValue(s: string, base: nat): nat {
    if s == [] then 0 else NumberValue(s[..|s| - 1], base) * base + DigitValue(s[|s| - 1])
  }

  const LONG_MAX: nat := 0x7FFF_FFFF_FFFF_FFFF

  /** The conversion to `int` of a `long`. */
  function ToInt(v: int): int {
    (v + 0x8000_0000) % 0x1_0000_0000 - 0x8000_0000
  }

  /** The digits `strtol` reads with base 0, without the sign: hexadecimal, octal or decimal by prefix. */
  function ParseMagnitude(u: string): Option<nat> {
    var hex := |u| >= 3 && u[0] == '0' && (u[1] == 'x' || u[1] == 'X') && DigitValue(u[2]) < 16;
    var base := if hex then 16 else if u != [] && u[0] == '0' then 8 else 10;
    var digits := if hex then u[2..] else u;
    var n := DigitCount(digits, base);
    if n == 0 then None else Some(NumberValue(digits[..n], base))
  }

  /** `strtol(s, &end, 0)` with the two error tests of the parsers: no digits, or out of range. */
  function ParseLong(s: string): Option<int> {
    var t := SkipSpace(s);
    var negative := t != [] && t[0] == '-';
    match ParseMagnitude(if t != [] && (t[0] == '-' || t[0] == '+') then t[1..] else t)
    case None => None
    case Some(m) =>
      if m > LONG_MAX + (if negative then 1 else 0) then None
      else Some(ToInt(if negative then 0 - m else m))
  }

  /** `parse_reg`. */
  function ParseReg(tok: string): Option<int> {
    if tok == [] || LowerChar(tok[0]) != 'r' then None else ParseLong(tok[1..])
  }

  /** `parse_immediate`. */
  function ParseImmediate(tok: string): Option<int> {
    if tok == [] || tok[0] != '#' then None else ParseLong(tok[1..])
  }

  /** `check_reg_range` and `check_imm8_range`. */
  predicate RegRange(r: int) { 0 <= r <= 0xFF }

  predicate ImmRange(v: int) { -128 <= v <= 127 }

  // ------------------------------------------------------------------
  // One line
  // ------------------------------------------------------------------

  datatype Error = UnknownOpcode | BadOperand | OutOfRange | ImmediateNotAllowed

  datatype Line = Blank | Word(w: bv32) | Fails(error: Error)

  datatype Operand = Reg(r: int) | Imm(v: int) | Bad(error: Error)

  /** Operands A and B: absent means register 0. */
  function OperandAB(toks: seq<string>, i: nat): Operand {
    if i >= |toks| then Reg(0)
    else match ParseReg(toks[i])
      case None => Bad(BadOperand)
      case Some(r) => if RegRange(r) then Reg(r) else Bad(OutOfRange)
  }

  /** Operand C: a register, or an immediate where the opcode allows one. */
  function OperandC(toks: seq<string>, op: nat): Operand {
    if |toks| <= 3 then Reg(0)
    else match ParseReg(toks[3])
      case Some(r) => if RegRange(r) then Reg(r) else Bad(OutOfRange)
      case None =>
        match ParseImmediate(toks[3])
        case None => Bad(BadOperand)
        case Some(v) =>
          if !AllowsImm(op) then Bad(ImmediateNotAllowed)
          else if !ImmRange(v) then Bad(OutOfRange)
          else Imm(v)
  }

  /** The fields of a line whose opcode is known, in the order the code checks them. */
  function Encode(toks: seq<string>, op: nat): Line
    requires op < OPCODES
  {
    var a := OperandAB(toks, 1);
    if a.Bad? then Fails(a.error)
    else
      var b := OperandAB(toks, 2);
      if b.Bad? then Fails(b.error)
      else
        var c := OperandC(toks, op);
        if c.Bad? then Fails(c.error)
        else if MustBeReg(op) && c.Imm? then Fails(ImmediateNotAllowed)
        else if !a.Reg? || !b.Reg? then Fails(BadOperand)
        else Word(Pack(op as bv8, ByteOf(a.r), ByteOf(b.r), c.Imm?, if c.Imm? then ByteOf(c.v) else ByteOf(c.r)))
  }

  /** The body of the main loop: trim, cut comments, tokenize, map HALT to EXIT unless raw, encode. */
  function AssembleLine(line: string, rawHalt: bool): Line {
    var p := SkipSpace(line);
    if p == [] || p[0] == ';' then Blank
    else
      var toks := Tokens(Before(Before(p, '\n'), ';'));
      if toks == [] then Blank
      else
        var name := if !rawHalt && SameName(toks[0], "halt") then "exit" else toks[0];
        var op := OpFrom(name, 0);
        if op < 0 then Fails(UnknownOpcode) else Encode(toks, op)
  }
}
