/** Printing and assembling are inverse to each other. */
module AssemblerLaws {
  import opened Words
  import opened Encoding
  import opened OpTable
  import opened Assembler

  // ------------------------------------------------------------------
  // Numbers
  // ------------------------------------------------------------------

  predicate DecChar(c: char) { '0' <= c <= '9' }

  lemma DigitIs(d: nat)
    requires d < 10
    ensures DecChar(Digit(d)) && DigitValue(Digit(d)) == d
  {
  }

  lemma {:induction false} DecShape(n: nat)
    ensures forall i :: 0 <= i < |Dec(n)| ==> DecChar(Dec(n)[i])
    ensures n > 0 ==> Dec(n)[0] != '0'
    ensures n < 10 ==> |Dec(n)| == 1
    ensures n < 100 ==> |Dec(n)| <= 2
    ensures n < 1000 ==> |Dec(n)| <= 3
    ensures NumberValue(Dec(n), 10) == n
    decreases n
  {
    if n < 10 {
      DigitIs(n);
      assert [Digit(n)][..0] == [];
    } else {
      DecShape(n / 10);
      DigitIs(n % 10);
      assert Dec(n)[..|Dec(n)| - 1] == Dec(n / 10);
    }
  }

  lemma {:induction false} AllDigits(s: string)
    requires forall i :: 0 <= i < |s| ==> DecChar(s[i])
    ensures DigitCount(s, 10) == |s|
  {
    if s != [] {
      AllDigits(s[1..]);
    }
  }

  lemma MagnitudeZero()
    ensures ParseMagnitude("0") == Some(0)
  {
    assert "0"[1..] == "";
    assert DigitCount("", 8) == 0;
    assert "0"[..1] == "0" && "0"[..0] == "";
  }

  lemma MagnitudeDec(n: nat)
    ensures ParseMagnitude(Dec(n)) == Some(n)
    ensures DecChar(Dec(n)[0])
  {
    var s := Dec(n);
    DecShape(n);
    AllDigits(s);
    if n == 0 {
      MagnitudeZero();
    } else {
      hide Dec, NumberValue, DigitCount;
      assert s[..|s|] == s;
    }
  }

  lemma ToIntSame(v: int)
    requires -0x8000_0000 <= v <= 0x7FFF_FFFF
    ensures ToInt(v) == v
  {
  }

  /** `strtol` reads back what `%u` and `%d` wrote. */
  lemma ParseSigned(v: int)
    requires -0x8000_0000 <= v <= 0x7FFF_FFFF
    ensures ParseLong(SignedDec(v)) == Some(v)
  {
    var n := if v < 0 then -v else v;
    MagnitudeDec(n);
    ToIntSame(v);
    hide ParseMagnitude, Dec, ToInt;
    assert ("-" + Dec(n))[1..] == Dec(n);
  }

  // ------------------------------------------------------------------
  // Tokens
  // ------------------------------------------------------------------

  /** A nonempty string without delimiters. */
  predicate Solid(t: string) {
    t != [] && forall i :: 0 <= i < |t| ==> !IsDelimiter(t[i])
  }

  lemma {:induction false} SolidLength(t: string, rest: string)
    requires forall i :: 0 <= i < |t| ==> !IsDelimiter(t[i])
    requires rest != [] ==> IsDelimiter(rest[0])
    ensures TokenLength(t + rest) == |t|
  {
    if t == [] {
      assert t + rest == rest;
    } else {
      assert (t + rest)[1..] == t[1..] + rest;
      SolidLength(t[1..], rest);
    }
  }

  /** A token followed by a delimiter. */
  lemma TokenThen(t: string, rest: string)
    requires Solid(t) && rest != [] && IsDelimiter(rest[0])
    ensures Tokens(t + rest) == [t] + Tokens(rest[1..])
  {
    SolidLength(t, rest);
    assert (t + rest)[..|t|] == t && (t + rest)[|t|..] == rest;
  }

  lemma TokenLast(t: string)
    requires Solid(t)
    ensures Tokens(t) == [t]
  {
    SolidLength(t, []);
    assert t + [] == t && t[..|t|] == t && t[|t|..] == [];
  }

  lemma {:induction false} TokensSkip(k: nat, rest: string)
    ensures Tokens(Spaces(k) + rest) == Tokens(rest)
  {
    if k == 0 {
      assert Spaces(0) + rest == rest;
    } else {
      assert (Spaces(k) + rest)[1..] == Spaces(k - 1) + rest;
      TokensSkip(k - 1, rest);
    }
  }

  function Spaces(k: nat): string {
    seq(k, i => ' ')
  }

  lemma TokenSpaces(t: string, k: nat, rest: string)
    requires Solid(t) && k > 0
    ensures Tokens(t + Spaces(k) + rest) == [t] + Tokens(rest)
  {
    var tail := Spaces(k) + rest;
    assert t + Spaces(k) + rest == t + tail;
    assert tail[1..] == Spaces(k - 1) + rest;
    TokenThen(t, tail);
    TokensSkip(k - 1, rest);
  }

  lemma TokenComma(t: string, rest: string)
    requires Solid(t)
    ensures Tokens(t + ", " + rest) == [t] + Tokens(rest)
  {
    var tail := ", " + rest;
    assert t + ", " + rest == t + tail;
    assert tail[1..] == Spaces(1) + rest;
    TokenThen(t, tail);
    TokensSkip(1, rest);
  }

  /** Five tokens with the separators of the printed line. */
  lemma LineTokens(name: string, k: nat, a: string, b: string, c: string, hex: string)
    requires k > 0 && Solid(name) && Solid(a) && Solid(b) && Solid(c) && Solid(hex)
    ensures Tokens(name + Spaces(k) + (a + ", " + (b + ", " + (c + Spaces(2) + hex)))) == [name, a, b, c, hex]
  {
    hide Tokens, Solid, Spaces;
    TokenSpaces(name, k, a + ", " + (b + ", " + (c + Spaces(2) + hex)));
    TokenComma(a, b + ", " + (c + Spaces(2) + hex));
    TokenComma(b, c + Spaces(2) + hex);
    TokenSpaces(c, 2, hex);
    TokenLast(hex);
  }

  // ------------------------------------------------------------------
  // The printed line
  // ------------------------------------------------------------------

  /** No line end, no comment, no end of string. */
  predicate Plain(s: string) {
    '\n' !in s && ';' !in s && '\0' !in s
  }

  lemma {:induction false} BeforeAll(s: string, c: char)
    requires c !in s
    ensures Before(s, c) == s
  {
    if s != [] {
      assert c !in s[1..];
      BeforeAll(s[1..], c);
      assert s == [s[0]] + s[1..];
    }
  }

  /** A letter and decimal digits make a token. */
  lemma DigitsToken(prefix: string, n: nat)
    requires Solid(prefix) && Plain(prefix)
    ensures Solid(prefix + Dec(n)) && Plain(prefix + Dec(n))
  {
    DecShape(n);
    hide Dec;
  }

  lemma RegToken(n: nat)
    ensures Solid("R" + Dec(n)) && Plain("R" + Dec(n))
    ensures n <= 0x7FFF_FFFF ==> ParseReg("R" + Dec(n)) == Some(n)
  {
    DigitsToken("R", n);
    if n <= 0x7FFF_FFFF {
      ParseSigned(n);
    }
    hide Dec, ParseLong, Solid, Plain;
    assert ("R" + Dec(n))[1..] == Dec(n);
  }

  lemma ImmToken(v: int)
    requires -128 <= v < 128
    ensures Solid("#" + SignedDec(v)) && Plain("#" + SignedDec(v))
    ensures ParseReg("#" + SignedDec(v)) == None && ParseImmediate("#" + SignedDec(v)) == Some(v)
  {
    if v < 0 {
      DigitsToken("#-", -v);
      assert "#-" + Dec(-v) == "#" + ("-" + Dec(-v));
    } else {
      DigitsToken("#", v);
    }
    ParseSigned(v);
    hide Dec, ParseLong, Solid, Plain;
    assert ("#" + SignedDec(v))[1..] == SignedDec(v);
  }

  lemma {:induction false} HexChars(w: bv32, digits: nat)
    ensures forall i :: 0 <= i < digits ==> DecChar(Hex(w, digits)[i]) || 'A' <= Hex(w, digits)[i] <= 'F'
    decreases digits
  {
    if digits > 0 {
      HexChars(w >> 4, digits - 1);
      DigitChar((w & 0xF) as bv4 as nat);
    }
  }

  lemma DigitChar(d: nat)
    requires d < 16
    ensures DecChar(Digit(d)) || 'A' <= Digit(d) <= 'F'
  {
  }

  lemma HexToken(w: bv32)
    ensures Solid("[0x" + Hex(w, 8) + "]") && Plain("[0x" + Hex(w, 8) + "]")
  {
    hide Hex;
    HexChars(w, 8);
    var t := Hex(w, 8);
    forall i | 0 <= i < |t|
      ensures !IsDelimiter(t[i]) && t[i] != '\n' && t[i] != ';' && t[i] != '\0'
    {
    }
  }

  lemma NameToken(op: nat)
    ensures Solid(PrintName(op)) && Plain(PrintName(op))
    ensures PrintName(op) != [] && !IsSpace(PrintName(op)[0])
  {
    PrintedChars(op);
    hide PrintName;
    assert PrintChar(PrintName(op)[0]);
  }

  lemma CToken(w: bv32)
    ensures Solid(PrintC(w)) && Plain(PrintC(w))
  {
    if HasImm(w) {
      ImmToken(Int8(FieldC(w)));
    } else {
      RegToken(FieldC(w) as nat);
    }
  }

  /** Assembling starts from the five tokens of the printed line. */
  lemma PrintTokens(w: bv32)
    ensures SkipSpace(Print(w)) == Print(w) && Print(w) != [] && Print(w)[0] != ';' && !IsSpace(Print(w)[0]) && Plain(Print(w))
    ensures Before(Before(Print(w), '\n'), ';') == Print(w)
    ensures Tokens(Print(w)) ==
            [PrintName(Opcode(w) as nat), "R" + Dec(FieldA(w) as nat), "R" + Dec(FieldB(w) as nat), PrintC(w), "[0x" + Hex(w, 8) + "]"]
  {
    hide Print, PrintName, Dec, PrintC, Hex, Opcode, FieldA, FieldB, Tokens, Plain, Solid, Before, Spaces, IsSpace;
    var op, fa, fb := Opcode(w) as nat, FieldA(w) as nat, FieldB(w) as nat;
    var name, a, b, c, hex := PrintName(op), "R" + Dec(fa), "R" + Dec(fb), PrintC(w), "[0x" + Hex(w, 8) + "]";
    NameToken(op);
    RegToken(fa);
    RegToken(fb);
    CToken(w);
    HexToken(w);
    var k := (if |name| < 10 then 10 - |name| else 0) + 1;
    PrintShape(w, name, k, a, b, c, hex);
    LineTokens(name, k, a, b, c, hex);
    PlainJoin(name, k, a, b, c, hex);
    SpaceFree(Print(w), name[0]);
    PlainBefore(Print(w));
  }

  lemma SpaceFree(s: string, c: char)
    requires s != [] && s[0] == c && !IsSpace(c)
    ensures SkipSpace(s) == s
  {
  }

  lemma PlainBefore(s: string)
    requires Plain(s) && s != []
    ensures Before(Before(s, '\n'), ';') == s && s[0] != ';'
  {
    BeforeAll(s, '\n');
    BeforeAll(s, ';');
  }

  /** The printed line with its separators regrouped. */
  lemma PrintShape(w: bv32, name: string, k: nat, a: string, b: string, c: string, hex: string)
    requires name == PrintName(Opcode(w) as nat) && a == "R" + Dec(FieldA(w) as nat) && b == "R" + Dec(FieldB(w) as nat)
    requires c == PrintC(w) && hex == "[0x" + Hex(w, 8) + "]" && k == (if |name| < 10 then 10 - |name| else 0) + 1
    ensures Print(w) == name + Spaces(k) + (a + ", " + (b + ", " + (c + Spaces(2) + hex)))
  {
    var da, db, h := Dec(FieldA(w) as nat), Dec(FieldB(w) as nat), Hex(w, 8);
    hide PrintName, Dec, PrintC, Hex, Opcode, FieldA, FieldB;
    Regroup(name, k, da, db, c, h);
    assert Print(w) == Pad(name) + " R" + da + ", R" + db + ", " + c + "  [0x" + h + "]";
  }

  lemma Regroup(name: string, k: nat, da: string, db: string, c: string, h: string)
    requires k == (if |name| < 10 then 10 - |name| else 0) + 1
    ensures Pad(name) + " R" + da + ", R" + db + ", " + c + "  [0x" + h + "]" ==
            name + Spaces(k) + (("R" + da) + ", " + (("R" + db) + ", " + (c + Spaces(2) + ("[0x" + h + "]"))))
  {
    assert Pad(name) == name + Spaces(k - 1);
    assert Spaces(k) == Spaces(k - 1) + " ";
    assert Spaces(2) == "  ";
    assert " R" == " " + "R" && ", R" == ", " + "R" && "  [0x" == "  " + "[0x";
  }

  lemma PlainJoin(name: string, k: nat, a: string, b: string, c: string, hex: string)
    requires Plain(name) && Plain(a) && Plain(b) && Plain(c) && Plain(hex)
    ensures Plain(name + Spaces(k) + (a + ", " + (b + ", " + (c + Spaces(2) + hex))))
  {
  }

  // ------------------------------------------------------------------
  // Round trips
  // ------------------------------------------------------------------

  /** The words the assembler can build. */
  predicate Assemblable(w: bv32) {
    (Opcode(w) as nat) < OPCODES && (HasImm(w) ==> AllowsImm(Opcode(w) as nat))
  }

  /** What the assembler makes of a word it reads back: without raw mode HALT becomes EXIT, fields kept. */
  function ReadBack(w: bv32, rawHalt: bool): Line {
    var op := OpRead(w, rawHalt);
    if op >= OPCODES then Fails(UnknownOpcode)
    else if HasImm(w) && !AllowsImm(op) then Fails(ImmediateNotAllowed)
    else Word(Pack(op as bv8, FieldA(w), FieldB(w), HasImm(w), FieldC(w)))
  }

  lemma ByteOfNat(b: bv8)
    ensures ByteOf(b as nat) == b && b as nat < 256
  {
    assert (b as int) as bv8 == b;
  }

  lemma RegOperand(toks: seq<string>, i: nat, b: bv8)
    requires i < |toks| && toks[i] == "R" + Dec(b as nat)
    ensures OperandAB(toks, i) == Reg(b as nat)
  {
    RegToken(b as nat);
    ByteOfNat(b);
    hide Dec, ParseReg;
  }

  lemma CRegOperand(toks: seq<string>, b: bv8, op: nat)
    requires |toks| == 5 && toks[3] == "R" + Dec(b as nat)
    ensures OperandC(toks, op) == Reg(b as nat)
  {
    RegToken(b as nat);
    ByteOfNat(b);
    hide Dec, ParseReg;
  }

  lemma CImmOperand(toks: seq<string>, v: int, op: nat)
    requires |toks| == 5 && toks[3] == "#" + SignedDec(v) && -128 <= v < 128
    ensures OperandC(toks, op) == if AllowsImm(op) then Imm(v) else Bad(ImmediateNotAllowed)
  {
    ImmToken(v);
    hide SignedDec, ParseReg, ParseImmediate, AllowsImm;
  }

  lemma OperandsBack(w: bv32, toks: seq<string>, op: nat)
    requires |toks| == 5 && toks[1] == "R" + Dec(FieldA(w) as nat) && toks[2] == "R" + Dec(FieldB(w) as nat) && toks[3] == PrintC(w)
    ensures OperandAB(toks, 1) == Reg(FieldA(w) as nat) && OperandAB(toks, 2) == Reg(FieldB(w) as nat)
    ensures OperandC(toks, op) ==
            if !HasImm(w) then Reg(FieldC(w) as nat)
            else if AllowsImm(op) then Imm(Int8(FieldC(w))) else Bad(ImmediateNotAllowed)
  {
    hide Dec, AllowsImm, OperandAB, OperandC, SignedDec, FieldA, FieldB, FieldC, HasImm;
    RegOperand(toks, 1, FieldA(w));
    RegOperand(toks, 2, FieldB(w));
    if HasImm(w) {
      CImmOperand(toks, Int8(FieldC(w)), op);
    } else {
      CRegOperand(toks, FieldC(w), op);
    }
  }

  lemma EncodeBack(w: bv32, toks: seq<string>, op: nat)
    requires op < OPCODES
    requires |toks| == 5 && toks[1] == "R" + Dec(FieldA(w) as nat) && toks[2] == "R" + Dec(FieldB(w) as nat) && toks[3] == PrintC(w)
    ensures Encode(toks, op) ==
            if HasImm(w) && !AllowsImm(op) then Fails(ImmediateNotAllowed)
            else Word(Pack(op as bv8, FieldA(w), FieldB(w), HasImm(w), FieldC(w)))
  {
    OperandsBack(w, toks, op);
    RegsNeverAllow(op);
    ByteOfNat(FieldA(w));
    ByteOfNat(FieldB(w));
    ByteOfNat(FieldC(w));
    ByteOfInt8(FieldC(w));
    hide Dec, AllowsImm, MustBeReg, OperandAB, OperandC, PrintC, ByteOf, Pack, FieldA, FieldB, FieldC, HasImm;
  }

  lemma RegsNeverAllow(op: nat)
    ensures MustBeReg(op) ==> !AllowsImm(op)
  {
  }

  lemma HaltName(op: nat)
    ensures SameName(PrintName(op), "halt") <==> op == HALT
    ensures OpFrom("exit", 0) == EXIT
  {
    assert TableName(EXIT) == "exit" && TableName(HALT) == "halt";
    OpFound(EXIT, "exit", 0);
    OpFound(HALT, "halt", 0);
    NameRoundTrip(op);
    hide TableName;
    if SameName(PrintName(op), "halt") {
      if op < OPCODES {
        OpFound(HALT, PrintName(op), 0);
      } else {
        SameSignature("UNKNOWN", "halt");
      }
    }
    if op == HALT {
      CapitalsSame(PrintName(HALT), TableName(HALT));
    }
  }

  /** The line after its tokens are known. */
  lemma LineOf(line: string, rawHalt: bool, toks: seq<string>, op: int)
    requires SkipSpace(line) == line && line != [] && line[0] != ';'
    requires Before(Before(line, '\n'), ';') == line && Tokens(line) == toks && toks != []
    requires op == OpFrom(if !rawHalt && SameName(toks[0], "halt") then "exit" else toks[0], 0)
    ensures AssembleLine(line, rawHalt) == if op < 0 then Fails(UnknownOpcode) else Encode(toks, op)
  {
    hide SkipSpace, Before, Tokens, OpFrom, SameName, Encode;
  }

  /** The opcode the assembler takes a printed line for. */
  function OpRead(w: bv32, rawHalt: bool): nat {
    if !rawHalt && Opcode(w) as nat == HALT then EXIT else Opcode(w) as nat
  }

  lemma PrintedLine(w: bv32, rawHalt: bool)
    ensures AssembleLine(Print(w), rawHalt) ==
            if OpRead(w, rawHalt) < OPCODES then Encode(Tokens(Print(w)), OpRead(w, rawHalt)) else Fails(UnknownOpcode)
  {
    hide Print, PrintName, SameName, Tokens, Encode, Before, SkipSpace, Dec, PrintC, Hex, Opcode, FieldA, FieldB;
    hide AssembleLine, OpFrom;
    PrintTokens(w);
    HaltName(Opcode(w) as nat);
    NameRoundTrip(Opcode(w) as nat);
    var op := OpRead(w, rawHalt);
    LineOf(Print(w), rawHalt, Tokens(Print(w)), if op < OPCODES then op else -1);
  }

  /** What the assembler makes of the printed line of any word at all, with and without raw mode. */
  lemma AssemblePrinted(w: bv32, rawHalt: bool)
    ensures AssembleLine(Print(w), rawHalt) == ReadBack(w, rawHalt)
  {
    PrintTokens(w);
    PrintedLine(w, rawHalt);
    hide Print, PrintName, Tokens, Encode, Before, SkipSpace, Dec, PrintC, Hex, Pack, HasImm, Opcode, FieldA, FieldB;
    hide FieldC, AllowsImm, AssembleLine;
    if OpRead(w, rawHalt) < OPCODES {
      EncodeBack(w, Tokens(Print(w)), OpRead(w, rawHalt));
    }
  }

  lemma OpcodeAsByte(w: bv32)
    ensures (Opcode(w) as nat) as bv8 == Opcode(w)
  {
    hide Opcode;
  }

  lemma ReadBackRaw(w: bv32)
    ensures ReadBack(w, true) == Word(w) <==> Assemblable(w)
  {
    PackOfFields(w);
    OpcodeAsByte(w);
    hide Pack, Opcode, FieldA, FieldB, FieldC, HasImm, AllowsImm;
  }

  lemma ReadBackHalt(w: bv32)
    requires Opcode(w) as nat == HALT
    ensures ReadBack(w, false) != Word(w)
  {
    SmallByte(EXIT);
    FieldsOfPack(EXIT as bv8, FieldA(w), FieldB(w), HasImm(w), FieldC(w));
    hide Pack, Opcode, FieldA, FieldB, FieldC, HasImm, AllowsImm;
  }

  /** In raw mode the round trip gives the same word for exactly the words an assembler can build;
      without it the word must not be a HALT either. */
  lemma RoundTripIff(w: bv32, rawHalt: bool)
    ensures AssembleLine(Print(w), rawHalt) == Word(w) <==> Assemblable(w) && (rawHalt || Opcode(w) as nat != HALT)
  {
    AssemblePrinted(w, rawHalt);
    ReadBackRaw(w);
    if Opcode(w) as nat == HALT {
      ReadBackHalt(w);
    }
    hide AssembleLine, Print, Pack, Opcode, FieldA, FieldB, FieldC, HasImm, AllowsImm;
  }

  // ------------------------------------------------------------------
  // The other direction
  // ------------------------------------------------------------------

  lemma EncodedWord(toks: seq<string>, op: nat)
    requires op < OPCODES && Encode(toks, op).Word?
    ensures Assemblable(Encode(toks, op).w) && Opcode(Encode(toks, op).w) as nat == op
  {
    var c := OperandC(toks, op);
    SmallByte(op);
    FieldsOfPack(op as bv8, ByteOf(OperandAB(toks, 1).r), ByteOf(OperandAB(toks, 2).r), c.Imm?, if c.Imm? then ByteOf(c.v) else ByteOf(c.r));
    hide Pack, Opcode, HasImm, FieldA, FieldB, FieldC, ParseReg, ParseImmediate, ByteOf;
  }

  /** Whatever line the assembler accepts, printing its word and assembling again gives that word. */
  lemma AcceptedIsStable(line: string, rawHalt: bool)
    requires AssembleLine(line, rawHalt).Word?
    ensures var w := AssembleLine(line, rawHalt).w;
            Assemblable(w) && AssembleLine(Print(w), true) == Word(w)
  {
    var toks := Tokens(Before(Before(SkipSpace(line), '\n'), ';'));
    var name := if !rawHalt && SameName(toks[0], "halt") then "exit" else toks[0];
    EncodedWord(toks, OpFrom(name, 0));
    var w := AssembleLine(line, rawHalt).w;
    hide AssembleLine, Assemblable;
    RoundTripIff(w, true);
  }
}
