/** Lines as people write them: any numbers, any separators, missing operands, extra text and comments. */
module WrittenLines {
  import opened Words
  import opened Encoding
  import opened OpTable
  import opened Assembler
  import opened AssemblerLaws
  import Num = WordNumbers

  // ------------------------------------------------------------------
  // Numbers
  // ------------------------------------------------------------------

  /** What a number is read as: cut to 32 bits, and refused outside 64 bits. */
  function ReadAs(v: int): Option<int> {
    if 0 - LONG_MAX - 1 <= v <= LONG_MAX then Some(ToInt(v)) else None
  }

  /** Any decimal number. */
  lemma ParseDecimal(v: int)
    ensures ParseLong(SignedDec(v)) == ReadAs(v)
  {
    var n := if v < 0 then -v else v;
    MagnitudeDec(n);
    hide ParseMagnitude, Dec, ToInt;
    assert ("-" + Dec(n))[1..] == Dec(n);
  }

  /** A plus sign makes no difference. */
  lemma ParsePlus(n: nat)
    ensures ParseLong("+" + Dec(n)) == ReadAs(n)
  {
    MagnitudeDec(n);
    hide ParseMagnitude, Dec, ToInt;
    assert ("+" + Dec(n))[1..] == Dec(n);
  }

  /** `%o`. */
  function Oct(n: nat): (s: string)
    ensures s != []
  {
    if n < 8 then [Digit(n)] else Oct(n / 8) + [Digit(n % 8)]
  }

  lemma {:induction false} OctShape(n: nat)
    ensures forall i :: 0 <= i < |Oct(n)| ==> '0' <= Oct(n)[i] <= '7'
    ensures NumberValue(Oct(n), 8) == n
    decreases n
  {
    if n < 8 {
      assert [Digit(n)][..0] == [];
    } else {
      OctShape(n / 8);
      assert Oct(n)[..|Oct(n)| - 1] == Oct(n / 8);
    }
  }

  lemma {:induction false} AllBelow(s: string, base: nat)
    requires forall i :: 0 <= i < |s| ==> DigitValue(s[i]) < base
    ensures DigitCount(s, base) == |s|
  {
    if s != [] {
      AllBelow(s[1..], base);
    }
  }

  lemma {:induction false} LeadingZero(s: string, base: nat)
    ensures NumberValue("0" + s, base) == NumberValue(s, base)
    decreases |s|
  {
    if s == [] {
      assert "0" + s == "0" && "0"[..0] == "";
    } else {
      assert ("0" + s)[..|s|] == "0" + s[..|s| - 1];
      LeadingZero(s[..|s| - 1], base);
    }
  }

  /** A leading zero makes a number octal. */
  lemma ParseOctal(n: nat)
    ensures ParseMagnitude("0" + Oct(n)) == Some(n)
  {
    var s := "0" + Oct(n);
    OctShape(n);
    LeadingZero(Oct(n), 8);
    assert forall i :: 0 <= i < |s| ==> '0' <= s[i] <= '7';
    OctalDigits(s);
    AllBelow(s, 8);
    hide Oct, NumberValue, DigitCount;
    assert s[..|s|] == s;
  }

  lemma OctalDigits(s: string)
    requires forall i :: 0 <= i < |s| ==> '0' <= s[i] <= '7'
    ensures forall i :: 0 <= i < |s| ==> DigitValue(s[i]) < 8
    ensures |s| > 1 ==> s[1] != 'x' && s[1] != 'X'
  {
  }

  // ------------------------------------------------------------------
  // Hexadecimal
  // ------------------------------------------------------------------

  function High(w: bv32): bv32 { w >> 4 }

  function Low(w: bv32): bv4 { (w & 0xF) as bv4 }

  function Top(w: bv32): bv28 { (w >> 4) as bv28 }

  function Nibbles(h: bv28, l: bv4): bv32 { ((h as bv32) << 4) | (l as bv32) }

  function TopNumber(h: bv28): nat { h as nat }

  function LowNumber(l: bv4): (n: nat) ensures n < 16 { l as nat }

  lemma NibblesOf(w: bv32)
    ensures w == Nibbles(Top(w), Low(w))
  {
  }

  lemma RawNibbles(h: bv28, l: bv4)
    ensures (((h as bv32) << 4) | (l as bv32)) as nat == h as nat * 16 + l as nat
  {
  }

  lemma NibblesNumber(h: bv28, l: bv4)
    ensures Num.Number(Nibbles(h, l)) == TopNumber(h) * 16 + LowNumber(l)
  {
    RawNibbles(h, l);
  }

  lemma HighIsTop(w: bv32)
    ensures Num.Number(High(w)) == TopNumber(Top(w))
  {
  }

  lemma NibbleSplit(w: bv32)
    ensures Num.Number(w) == Num.Number(High(w)) * 16 + LowNumber(Low(w))
  {
    hide High, Low, Top, Nibbles, TopNumber, LowNumber, Num.Number;
    NibblesOf(w);
    NibblesNumber(Top(w), Low(w));
    HighIsTop(w);
  }

  /** 16 to a power. */
  function Sixteens(n: nat): (p: nat)
    ensures p > 0
  {
    if n == 0 then 1 else 16 * Sixteens(n - 1)
  }

  lemma HexDigit(d: nat)
    requires d < 16
    ensures DigitValue(Digit(d)) == d
  {
  }

  /** The digits have the value of the word when there are enough of them. */
  lemma {:induction false} HexShape(w: bv32, digits: nat)
    requires Num.Number(w) < Sixteens(digits)
    ensures NumberValue(Hex(w, digits), 16) == Num.Number(w)
    ensures forall i :: 0 <= i < digits ==> DigitValue(Hex(w, digits)[i]) < 16
    decreases digits
  {
    hide Num.Number, LowNumber, Low, High, Hex;
    HexUnfold(w, digits);
    if digits > 0 {
      NibbleSplit(w);
      HexShape(High(w), digits - 1);
      HexDigit(LowNumber(Low(w)));
      assert Hex(w, digits)[..digits - 1] == Hex(High(w), digits - 1);
    }
  }

  lemma HexUnfold(w: bv32, digits: nat)
    ensures Hex(w, digits) == if digits == 0 then "" else Hex(High(w), digits - 1) + [Digit(LowNumber(Low(w)))]
  {
  }

  lemma EightNibbles()
    ensures Sixteens(8) == U32
  {
    assert Sixteens(2) == 256 && Sixteens(4) == 65536 && Sixteens(6) == 0x100_0000;
  }

  /** The printed hexadecimal word and the hexadecimal reader belong together. */
  lemma ParseHex(w: bv32)
    ensures ParseLong("0x" + Hex(w, 8)) == Some(ToInt(Num.Number(w)))
  {
    hide Hex, Num.Number, NumberValue, ToInt;
    Num.NumberBound(w);
    EightNibbles();
    HexShape(w, 8);
    var s, t := "0x" + Hex(w, 8), Hex(w, 8);
    AllBelow(t, 16);
    assert s[2..] == t && t[..8] == t && s[2] == t[0];
  }

  // ------------------------------------------------------------------
  // Tokens
  // ------------------------------------------------------------------

  /** What may stand between operands. */
  predicate Separates(s: string) {
    s != [] && forall i :: 0 <= i < |s| ==> IsDelimiter(s[i])
  }

  lemma {:induction false} DelimitersSkipped(s: string, rest: string)
    requires forall i :: 0 <= i < |s| ==> IsDelimiter(s[i])
    ensures Tokens(s + rest) == Tokens(rest)
  {
    if s == [] {
      assert s + rest == rest;
    } else {
      assert (s + rest)[1..] == s[1..] + rest;
      DelimitersSkipped(s[1..], rest);
    }
  }

  lemma TokenSeparated(t: string, s: string, rest: string)
    requires Solid(t) && Separates(s)
    ensures Tokens(t + (s + rest)) == [t] + Tokens(rest)
  {
    var tail := s + rest;
    assert tail[1..] == s[1..] + rest;
    TokenThen(t, tail);
    DelimitersSkipped(s[1..], rest);
  }

  lemma {:induction false} TokenCut(s: string, d: char, more: string)
    requires IsDelimiter(d)
    ensures TokenLength(s + [d] + more) == TokenLength(s)
  {
    if s == [] || IsDelimiter(s[0]) {
      assert (s + [d] + more)[0] == if s == [] then d else s[0];
    } else {
      assert (s + [d] + more)[1..] == s[1..] + [d] + more;
      TokenCut(s[1..], d, more);
    }
  }

  /** Text after a delimiter adds its own tokens. */
  lemma {:induction false} TokensJoin(s: string, d: char, more: string)
    requires IsDelimiter(d)
    ensures Tokens(s + [d] + more) == Tokens(s) + Tokens(more)
    decreases |s|
  {
    var all := s + [d] + more;
    if s == [] {
      assert all[1..] == more;
    } else if IsDelimiter(s[0]) {
      assert all[1..] == s[1..] + [d] + more;
      TokensJoin(s[1..], d, more);
    } else {
      var n := TokenLength(s);
      TokenCut(s, d, more);
      assert all[..n] == s[..n] && all[n..] == s[n..] + [d] + more;
      TokensJoin(s[n..], d, more);
    }
  }

  // ------------------------------------------------------------------
  // Missing operands, extra text, comments, indentation
  // ------------------------------------------------------------------

  /** A line without comment that starts with its mnemonic. */
  predicate Bare(line: string) {
    line != [] && !IsSpace(line[0]) && line[0] != ';' && Plain(line)
  }

  lemma BareLine(line: string, rawHalt: bool, toks: seq<string>)
    requires Bare(line) && toks == Tokens(line) && toks != []
    ensures var name := if !rawHalt && SameName(toks[0], "halt") then "exit" else toks[0];
            AssembleLine(line, rawHalt) == if OpFrom(name, 0) < 0 then Fails(UnknownOpcode) else Encode(toks, OpFrom(name, 0))
  {
    hide Tokens, OpFrom, SameName, Encode, Before, Plain, IsSpace;
    SpaceFree(line, line[0]);
    PlainBefore(line);
  }

  lemma RegisterZero(toks: seq<string>, i: nat)
    requires i < |toks| && toks[i] == "R0"
    ensures ParseReg(toks[i]) == Some(0) && OperandAB(toks, i) == Reg(0)
  {
    assert Dec(0) == "0";
    RegToken(0);
    hide ParseLong;
    assert "R" + "0" == "R0";
  }

  /** An operand that is not there is R0. */
  lemma OperandMissing(toks: seq<string>, op: nat)
    requires op < OPCODES && 1 <= |toks| <= 3
    ensures Encode(toks + ["R0"], op) == Encode(toks, op)
  {
    var more := toks + ["R0"];
    RegisterZero(more, |toks|);
    hide ParseReg, ParseImmediate, AllowsImm, MustBeReg, Pack;
    assert forall i :: 0 <= i < |toks| ==> more[i] == toks[i];
  }

  lemma BareMore(line: string, d: char, more: string)
    requires Bare(line) && (d == ' ' || d == ',') && Plain(more)
    ensures Bare(line + [d] + more)
  {
  }

  lemma PlainZero()
    ensures Plain("R0") && Tokens("R0") == ["R0"]
  {
    TokenLast("R0");
  }

  /** On the text: a line with fewer than three operands assembles as the line with R0 in their place. */
  lemma MissingOperand(line: string, rawHalt: bool)
    requires Bare(line) && 1 <= |Tokens(line)| <= 3
    ensures AssembleLine(line + [','] + "R0", rawHalt) == AssembleLine(line, rawHalt)
  {
    hide Tokens, OpFrom, SameName, Encode, Plain, Bare, AssembleLine;
    PlainZero();
    BareMore(line, ',', "R0");
    TokensJoin(line, ',', "R0");
    BareLine(line, rawHalt, Tokens(line));
    BareLine(line + [','] + "R0", rawHalt, Tokens(line) + ["R0"]);
    var toks := Tokens(line);
    var op := OpFrom(if !rawHalt && SameName(toks[0], "halt") then "exit" else toks[0], 0);
    if op >= 0 {
      OperandMissing(toks, op);
    }
  }

  lemma OperandsEnough(toks: seq<string>, more: seq<string>, op: nat)
    requires op < OPCODES && |toks| >= 4
    ensures Encode(toks + more, op) == Encode(toks, op)
  {
    hide ParseReg, ParseImmediate, AllowsImm, MustBeReg, Pack;
    assert forall i :: 0 <= i < |toks| ==> (toks + more)[i] == toks[i];
  }

  /** Text after the third operand is ignored. */
  lemma ExtraText(line: string, more: string, rawHalt: bool)
    requires Bare(line) && |Tokens(line)| >= 4 && Plain(more)
    ensures AssembleLine(line + [' '] + more, rawHalt) == AssembleLine(line, rawHalt)
  {
    hide Tokens, OpFrom, SameName, Encode, Plain, Bare, AssembleLine;
    BareMore(line, ' ', more);
    TokensJoin(line, ' ', more);
    BareLine(line, rawHalt, Tokens(line));
    BareLine(line + [' '] + more, rawHalt, Tokens(line) + Tokens(more));
    var toks := Tokens(line);
    var op := OpFrom(if !rawHalt && SameName(toks[0], "halt") then "exit" else toks[0], 0);
    if op >= 0 {
      OperandsEnough(toks, Tokens(more), op);
    }
  }

  lemma {:induction false} SpacesSkipped(s: string, line: string)
    requires forall i :: 0 <= i < |s| ==> IsSpace(s[i])
    ensures SkipSpace(s + line) == SkipSpace(line)
  {
    if s == [] {
      assert s + line == line;
    } else {
      assert (s + line)[1..] == s[1..] + line;
      SpacesSkipped(s[1..], line);
    }
  }

  /** Indentation is ignored. */
  lemma Indentation(s: string, line: string, rawHalt: bool)
    requires forall i :: 0 <= i < |s| ==> IsSpace(s[i])
    ensures AssembleLine(s + line, rawHalt) == AssembleLine(line, rawHalt)
  {
    hide Tokens, OpFrom, SameName, Encode, Before, SkipSpace, IsSpace;
    SpacesSkipped(s, line);
  }

  lemma {:induction false} BeforeFirst(s: string, c: char, more: string)
    requires c !in s
    ensures Before(s + [c] + more, c) == s
  {
    if s == [] {
      assert ([] + [c] + more)[0] == c;
    } else {
      assert (s + [c] + more)[1..] == s[1..] + [c] + more;
      assert c !in s[1..];
      BeforeFirst(s[1..], c, more);
      assert s == [s[0]] + s[1..];
    }
  }

  lemma {:induction false} BeforeLater(s: string, c: char, more: string)
    requires c !in s
    ensures Before(s + more, c) == s + Before(more, c)
  {
    if s == [] {
      assert s + more == more;
    } else {
      assert (s + more)[1..] == s[1..] + more;
      assert c !in s[1..];
      BeforeLater(s[1..], c, more);
      assert s == [s[0]] + s[1..];
    }
  }

  lemma CommentCut(line: string, text: string)
    requires Plain(line)
    ensures Before(Before(line + [';'] + text, '\n'), ';') == line
  {
    hide Before;
    assert line + [';'] + text == line + ([';'] + text);
    BeforeLater(line, '\n', [';'] + text);
    BeforeLater([';'], '\n', text);
    assert line + ([';'] + Before(text, '\n')) == line + [';'] + Before(text, '\n');
    BeforeFirst(line, ';', Before(text, '\n'));
  }

  /** A comment is ignored. */
  lemma CommentIgnored(line: string, text: string, rawHalt: bool)
    requires Bare(line)
    ensures AssembleLine(line + [';'] + text, rawHalt) == AssembleLine(line, rawHalt)
  {
    hide Tokens, OpFrom, SameName, Encode, Before, Plain, IsSpace;
    CommentCut(line, text);
    PlainBefore(line);
    SpaceFree(line, line[0]);
    SpaceFree(line + [';'] + text, line[0]);
  }

  /** A line of nothing but a comment is blank, and so is an empty one. */
  lemma BlankLine(text: string, rawHalt: bool)
    ensures AssembleLine([';'] + text, rawHalt) == Blank && AssembleLine("", rawHalt) == Blank
  {
    hide Tokens, OpFrom, SameName, Encode, Before;
    assert ([';'] + text)[0] == ';';
  }

  // ------------------------------------------------------------------
  // A whole line
  // ------------------------------------------------------------------

  datatype Third = Register(n: int) | Immediate(n: int)

  predicate RegLetter(c: char) { c == 'R' || c == 'r' }

  function RegText(letter: char, v: int): string { [letter] + SignedDec(v) }

  function ThirdText(letter: char, c: Third): string {
    if c.Register? then RegText(letter, c.n) else "#" + SignedDec(c.n)
  }

  /** A line with three operands and anything for separators. */
  function Text(name: string, s: string, a: string, t: string, b: string, u: string, c: string): string {
    name + (s + (a + (t + (b + (u + c)))))
  }

  /** What is wrong with a register number, if anything. */
  function RegFault(v: int): Option<Error> {
    match ReadAs(v)
    case None => Some(BadOperand)
    case Some(x) => if 0 <= x <= 255 then None else Some(OutOfRange)
  }

  /** What the line means: the first fault, or the word. Numbers count modulo 2^32, so a register number
      of 2^32 is R0. */
  function Meaning(op: nat, a: int, b: int, c: Third): Line
    requires op < OPCODES
  {
    if RegFault(a).Some? then Fails(RegFault(a).value)
    else if RegFault(b).Some? then Fails(RegFault(b).value)
    else match c
      case Register(n) =>
        if RegFault(n).Some? then Fails(RegFault(n).value)
        else Word(Pack(op as bv8, ByteOf(ToInt(a)), ByteOf(ToInt(b)), false, ByteOf(ToInt(n))))
      case Immediate(n) =>
        if ReadAs(n) == None then Fails(BadOperand)
        else if !AllowsImm(op) then Fails(ImmediateNotAllowed)
        else if !(-128 <= ToInt(n) <= 127) then Fails(OutOfRange)
        else Word(Pack(op as bv8, ByteOf(ToInt(a)), ByteOf(ToInt(b)), true, ByteOf(ToInt(n))))
  }

  lemma DecimalChars(v: int)
    ensures SignedDec(v) != [] && forall i :: 0 <= i < |SignedDec(v)| ==> DecChar(SignedDec(v)[i]) || SignedDec(v)[i] == '-'
  {
    DecShape(if v < 0 then -v else v);
  }

  lemma RegTokenText(letter: char, v: int)
    requires RegLetter(letter)
    ensures var t := RegText(letter, v); Solid(t) && Plain(t) && ParseReg(t) == ReadAs(v) && ParseImmediate(t) == None
  {
    DecimalChars(v);
    ParseDecimal(v);
    hide SignedDec, ParseLong, ReadAs;
    assert RegText(letter, v)[1..] == SignedDec(v);
  }

  lemma ImmediateText(v: int)
    ensures var t := "#" + SignedDec(v); Solid(t) && Plain(t) && ParseReg(t) == None && ParseImmediate(t) == ReadAs(v)
  {
    DecimalChars(v);
    ParseDecimal(v);
    hide SignedDec, ParseLong, ReadAs;
    assert ("#" + SignedDec(v))[1..] == SignedDec(v);
  }

  lemma FourTokens(name: string, s: string, a: string, t: string, b: string, u: string, c: string)
    requires Solid(name) && Solid(a) && Solid(b) && Solid(c) && Separates(s) && Separates(t) && Separates(u)
    ensures Tokens(Text(name, s, a, t, b, u, c)) == [name, a, b, c]
  {
    hide Tokens, Solid, Separates;
    TokenLast(c);
    TokenSeparated(b, u, c);
    TokenSeparated(a, t, b + (u + c));
    TokenSeparated(name, s, a + (t + (b + (u + c))));
  }

  lemma PlainSeparator(s: string)
    requires Separates(s)
    ensures Plain(s)
  {
  }

  lemma TextBare(name: string, s: string, a: string, t: string, b: string, u: string, c: string)
    requires name != [] && !IsSpace(name[0]) && name[0] != ';'
    requires Plain(name) && Plain(a) && Plain(b) && Plain(c) && Plain(s) && Plain(t) && Plain(u)
    ensures Bare(Text(name, s, a, t, b, u, c))
  {
  }

  /** Any spelling of a mnemonic is a token. */
  lemma NameText(op: nat, name: string)
    requires op < OPCODES && SameName(TableName(op), name)
    ensures name != [] && Solid(name) && Plain(name) && !IsSpace(name[0]) && name[0] != ';'
  {
    var t := TableName(op);
    assert Identifies(t, op);
    SameSignature(t, name);
    hide OpOfSignature, Signature, TableName;
    forall i | 0 <= i < |name|
      ensures 'a' <= LowerChar(name[i]) <= 'z' || LowerChar(name[i]) == '_'
    {
      assert LowerChar(name[i]) == Lower(name)[i] == Lower(t)[i] == LowerChar(t[i]);
    }
  }

  lemma EncodeText(toks: seq<string>, op: nat, a: int, b: int, c: Third)
    requires op < OPCODES && |toks| == 4
    requires ParseReg(toks[1]) == ReadAs(a) && ParseReg(toks[2]) == ReadAs(b)
    requires c.Register? ==> ParseReg(toks[3]) == ReadAs(c.n) && ParseImmediate(toks[3]) == None
    requires c.Immediate? ==> ParseReg(toks[3]) == None && ParseImmediate(toks[3]) == ReadAs(c.n)
    ensures Encode(toks, op) == Meaning(op, a, b, c)
  {
    RegsNeverAllow(op);
    hide ParseReg, ParseImmediate, AllowsImm, MustBeReg, Pack, ByteOf, ToInt;
  }

  /** The opcode a mnemonic stands for: without raw mode HALT is EXIT. */
  function Meant(op: nat, rawHalt: bool): nat { if !rawHalt && op == HALT then EXIT else op }

  /** Any line of a mnemonic in any spelling, two registers and a third operand, with any numbers and
      separators: exactly the word, or exactly the first fault. */
  lemma WrittenLine(op: nat, name: string, s: string, l: char, a: int, t: string, b: int, u: string, c: Third, rawHalt: bool)
    requires op < OPCODES && SameName(TableName(op), name)
    requires RegLetter(l) && Separates(s) && Separates(t) && Separates(u)
    ensures AssembleLine(Text(name, s, RegText(l, a), t, RegText(l, b), u, ThirdText(l, c)), rawHalt) == Meaning(Meant(op, rawHalt), a, b, c)
  {
    hide Solid, Plain, Separates, Tokens, OpFrom, SameName, Encode, AssembleLine, Meaning, Text, RegText, ReadAs;
    hide IsSpace, ParseReg, ParseImmediate, SignedDec, TableName;
    NameText(op, name);
    RegTokenText(l, a);
    RegTokenText(l, b);
    RegTokenText(l, c.n);
    ImmediateText(c.n);
    PlainSeparator(s);
    PlainSeparator(t);
    PlainSeparator(u);
    var x, y, z := RegText(l, a), RegText(l, b), ThirdText(l, c);
    FourTokens(name, s, x, t, y, u, z);
    TextBare(name, s, x, t, y, u, z);
    BareLine(Text(name, s, x, t, y, u, z), rawHalt, [name, x, y, z]);
    OpFound(op, name, 0);
    NotHalt(op, name);
    HaltName(op);
    EncodeText([name, x, y, z], Meant(op, rawHalt), a, b, c);
  }

  lemma NotHalt(op: nat, name: string)
    requires op < OPCODES && SameName(TableName(op), name)
    ensures SameName(name, "halt") <==> op == HALT
  {
    assert TableName(HALT) == "halt";
    hide TableName;
    OpFound(op, name, 0);
    if SameName(name, "halt") {
      OpFound(HALT, name, 0);
    }
  }

  lemma SmallRead(v: int)
    requires -128 <= v <= 255
    ensures ReadAs(v) == Some(v) && ToInt(v) == v && (v >= 0 ==> RegFault(v) == None)
  {
    ToIntSame(v);
  }

  lemma RegisterInRange(b: bv8)
    ensures ByteOf(ToInt(b as int)) == b && RegFault(b as int) == None
  {
    ByteOfNat(b);
    SmallRead(b as int);
    hide ByteOf;
  }

  lemma ImmediateInRange(c: bv8)
    ensures ReadAs(Int8(c)) == Some(Int8(c)) && ToInt(Int8(c)) == Int8(c) && ByteOf(Int8(c)) == c
  {
    ByteOfInt8(c);
    SmallRead(Int8(c));
    hide ByteOf, Int8;
  }

  /** With numbers in range: the word of the fields, unless an immediate is not allowed. */
  lemma InRange(op: nat, a: bv8, b: bv8, c: bv8)
    requires op < OPCODES
    ensures Meaning(op, a as int, b as int, Register(c as int)) == Word(Pack(op as bv8, a, b, false, c))
    ensures Meaning(op, a as int, b as int, Immediate(Int8(c))) ==
            if AllowsImm(op) then Word(Pack(op as bv8, a, b, true, c)) else Fails(ImmediateNotAllowed)
  {
    hide Pack, ByteOf, AllowsImm, Int8, ReadAs, ToInt, RegFault;
    RegisterInRange(a);
    RegisterInRange(b);
    RegisterInRange(c);
    ImmediateInRange(c);
  }
}
