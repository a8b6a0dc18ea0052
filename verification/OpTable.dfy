/** The mnemonics: `op_table` of converter.c with the search by name, and `opcode_names` of debug.c. */
module OpTable {

  const OPCODES: nat := 68
  const HALT: nat := 66
  const EXIT: nat := 65

  function LowerChar(c: char): char {
    if 'A' <= c <= 'Z' then c - 'A' + 'a' else c
  }

  function UpperChar(c: char): char {
    if 'a' <= c <= 'z' then c - 'a' + 'A' else c
  }

  function Lower(s: string): (r: string)
    ensures |r| == |s| && forall i :: 0 <= i < |s| ==> r[i] == LowerChar(s[i])
  {
    seq(|s|, i requires 0 <= i < |s| => LowerChar(s[i]))
  }

  // ------------------------------------------------------------------
  // The names, and a number that tells them apart
  // ------------------------------------------------------------------

  function Signature(s: string): int {
    if |s| < 2 then 0
    else
      2 * LowerChar(s[0]) as int + 6 * LowerChar(s[1]) as int + 6 * LowerChar(s[|s| / 2]) as int +
      8 * LowerChar(s[|s| - 1]) as int + |s|
  }

  function OpOfSignature(v: int): int {
    match v
    case 2197 => 0 case 2213 => 58 case 2224 => 57 case 2226 => 45 case 2228 => 24 case 2238 => 26
    case 2242 => 22 case 2258 => 63 case 2279 => 13 case 2281 => 43 case 2290 => 28 case 2293 => 6
    case 2295 => 56 case 2297 => 46 case 2306 => 31 case 2308 => 38 case 2309 => 54 case 2311 => 39
    case 2317 => 17 case 2328 => 27 case 2335 => 35 case 2336 => 60 case 2340 => 59 case 2346 => 33
    case 2353 => 4 case 2356 => 16 case 2364 => 37 case 2366 => 41 case 2367 => 29 case 2370 => 66
    case 2373 => 11 case 2375 => 9 case 2378 => 15 case 2381 => 34 case 2383 => 48 case 2392 => 40
    case 2393 => 51 case 2398 => 14 case 2400 => 52 case 2407 => 3 case 2409 => 42 case 2410 => 44
    case 2416 => 64 case 2418 => 8 case 2419 => 62 case 2421 => 1 case 2425 => 61 case 2433 => 53
    case 2444 => 32 case 2447 => 47 case 2451 => 67 case 2453 => 12 case 2464 => 21 case 2474 => 49
    case 2483 => 20 case 2484 => 65 case 2487 => 19 case 2489 => 2 case 2492 => 36 case 2504 => 18
    case 2522 => 30 case 2524 => 7 case 2526 => 5 case 2528 => 23 case 2529 => 50 case 2538 => 25
    case 2541 => 10 case 2585 => 55
    case _ => -1
  }

  predicate NameChar(c: char) { 'a' <= c <= 'z' || c == '_' }

  predicate Identifies(name: string, op: int) {
    2 <= |name| <= 16 && OpOfSignature(Signature(name)) == op && forall i :: 0 <= i < |name| ==> NameChar(name[i])
  }

  function ArithmeticName(op: nat): (name: string)
    requires 0 <= op < 17
    ensures Identifies(name, op)
  {
    match op
    case 0 => "add" case 1 => "sub" case 2 => "mul" case 3 => "div" case 4 => "mod" case 5 => "expt"
    case 6 => "abs" case 7 => "sqrt" case 8 => "ln" case 9 => "log" case 10 => "exp" case 11 => "sin"
    case 12 => "cos" case 13 => "tan" case 14 => "asin" case 15 => "acos" case 16 => "atan"
  }

  function LogicName(op: nat): (name: string)
    requires 17 <= op < 27
    ensures Identifies(name, op)
  {
    match op
    case 17 => "and" case 18 => "or" case 19 => "xor" case 20 => "not" case 21 => "eq" case 22 => "ne"
    case 23 => "gt" case 24 => "ge" case 25 => "lt" case 26 => "le"
  }

  function TimeName(op: nat): (name: string)
    requires 27 <= op < 39
    ensures Identifies(name, op)
  {
    match op
    case 27 => "time" case 28 => "date" case 29 => "tod" case 30 => "dt" case 31 => "add_time"
    case 32 => "sub_time" case 33 => "year" case 34 => "month" case 35 => "day" case 36 => "hour"
    case 37 => "minute" case 38 => "second"
  }

  function StringName(op: nat): (name: string)
    requires 39 <= op < 47
    ensures Identifies(name, op)
  {
    match op
    case 39 => "len" case 40 => "concat" case 41 => "left" case 42 => "right" case 43 => "mid"
    case 44 => "insert" case 45 => "delete" case 46 => "replace"
  }

  function BlockName(op: nat): (name: string)
    requires 47 <= op < 56
    ensures Identifies(name, op)
  {
    match op
    case 47 => "ton" case 48 => "tof" case 49 => "tp" case 50 => "ctu" case 51 => "ctd" case 52 => "ctud"
    case 53 => "limit" case 54 => "sel" case 55 => "mux"
  }

  function SignalName(op: nat): (name: string)
    requires 56 <= op < 62
    ensures Identifies(name, op)
  {
    match op
    case 56 => "rising_edge" case 57 => "falling_edge" case 58 => "edge_both" case 59 => "rs_latch"
    case 60 => "sr_latch" case 61 => "demux"
  }

  function ControlName(op: nat): (name: string)
    requires 62 <= op < 68
    ensures Identifies(name, op)
  {
    match op
    case 62 => "jmp" case 63 => "jmp_if" case 64 => "jmp_if_not" case 65 => "exit" case 66 => "halt"
    case 67 => "nop"
  }

  /** `op_table[op].name`. */
  function TableName(op: nat): (name: string)
    requires op < OPCODES
    ensures Identifies(name, op)
  {
    if op < 17 then ArithmeticName(op)
    else if op < 27 then LogicName(op)
    else if op < 39 then TimeName(op)
    else if op < 47 then StringName(op)
    else if op < 56 then BlockName(op)
    else if op < 62 then SignalName(op)
    else ControlName(op)
  }

  /** One name is the other in capitals. */
  predicate Capitals(upper: string, name: string) {
    |upper| == |name| && forall i :: 0 <= i < |name| ==> upper[i] == UpperChar(name[i])
  }

  function ArithmeticPrinted(op: nat): (s: string)
    requires op < 7
    ensures Capitals(s, ArithmeticName(op))
  {
    match op
    case 0 => "ADD" case 1 => "SUB" case 2 => "MUL" case 3 => "DIV" case 4 => "MOD" case 5 => "EXPT"
    case 6 => "ABS"
  }

  function FunctionPrinted(op: nat): (s: string)
    requires 7 <= op < 17
    ensures Capitals(s, ArithmeticName(op))
  {
    match op
    case 7 => "SQRT" case 8 => "LN" case 9 => "LOG" case 10 => "EXP" case 11 => "SIN" case 12 => "COS"
    case 13 => "TAN" case 14 => "ASIN" case 15 => "ACOS" case 16 => "ATAN"
  }

  function LogicPrinted(op: nat): (s: string)
    requires 17 <= op < 27
    ensures Capitals(s, LogicName(op))
  {
    match op
    case 17 => "AND" case 18 => "OR" case 19 => "XOR" case 20 => "NOT" case 21 => "EQ" case 22 => "NE"
    case 23 => "GT" case 24 => "GE" case 25 => "LT" case 26 => "LE"
  }

  function TimePrinted(op: nat): (s: string)
    requires 27 <= op < 33
    ensures Capitals(s, TimeName(op))
  {
    match op
    case 27 => "TIME" case 28 => "DATE" case 29 => "TOD" case 30 => "DT" case 31 => "ADD_TIME"
    case 32 => "SUB_TIME"
  }

  function DatePrinted(op: nat): (s: string)
    requires 33 <= op < 39
    ensures Capitals(s, TimeName(op))
  {
    match op
    case 33 => "YEAR" case 34 => "MONTH" case 35 => "DAY" case 36 => "HOUR" case 37 => "MINUTE"
    case 38 => "SECOND"
  }

  function TextPrinted(op: nat): (s: string)
    requires 39 <= op < 43
    ensures Capitals(s, StringName(op))
  {
    match op
    case 39 => "LEN" case 40 => "CONCAT" case 41 => "LEFT" case 42 => "RIGHT"
  }

  function EditPrinted(op: nat): (s: string)
    requires 43 <= op < 47
    ensures Capitals(s, StringName(op))
  {
    match op
    case 43 => "MID" case 44 => "INSERT" case 45 => "DELETE" case 46 => "REPLACE"
  }

  function BlockPrinted(op: nat): (s: string)
    requires 47 <= op < 56
    ensures Capitals(s, BlockName(op))
  {
    match op
    case 47 => "TON" case 48 => "TOF" case 49 => "TP" case 50 => "CTU" case 51 => "CTD" case 52 => "CTUD"
    case 53 => "LIMIT" case 54 => "SEL" case 55 => "MUX"
  }

  function EdgePrinted(op: nat): (s: string)
    requires 56 <= op < 59
    ensures Capitals(s, SignalName(op))
  {
    match op
    case 56 => "RISING_EDGE" case 57 => "FALLING_EDGE" case 58 => "EDGE_BOTH"
  }

  function LatchPrinted(op: nat): (s: string)
    requires 59 <= op < 62
    ensures Capitals(s, SignalName(op))
  {
    match op
    case 59 => "RS_LATCH" case 60 => "SR_LATCH" case 61 => "DEMUX"
  }

  function ControlPrinted(op: nat): (s: string)
    requires 62 <= op < 68
    ensures Capitals(s, ControlName(op))
  {
    match op
    case 62 => "JMP" case 63 => "JMP_IF" case 64 => "JMP_IF_NOT" case 65 => "EXIT" case 66 => "HALT"
    case 67 => "NOP"
  }

  /** `opcode_name` with the table `opcode_names` of debug.c, which lists the names in capitals. */
  function PrintName(op: nat): (s: string)
    ensures op < OPCODES ==> Capitals(s, TableName(op))
  {
    if op < 7 then ArithmeticPrinted(op)
    else if op < 17 then FunctionPrinted(op)
    else if op < 27 then LogicPrinted(op)
    else if op < 33 then TimePrinted(op)
    else if op < 39 then DatePrinted(op)
    else if op < 43 then TextPrinted(op)
    else if op < 47 then EditPrinted(op)
    else if op < 56 then BlockPrinted(op)
    else if op < 59 then EdgePrinted(op)
    else if op < 62 then LatchPrinted(op)
    else if op < OPCODES then ControlPrinted(op)
    else "UNKNOWN"
  }

  /** `CFLAG_ALLOW_IMM`. */
  predicate AllowsImm(op: nat) {
    0 <= op <= 5 || 17 <= op <= 19 || 21 <= op <= 26 || 31 <= op <= 32 || 41 <= op <= 51 || op == 53 || 55 <= op <= 65
  }

  /** `CFLAG_C_MUST_REG`. */
  predicate MustBeReg(op: nat) {
    op == 40 || op == 52 || op == 54
  }

  // ------------------------------------------------------------------
  // Search by name
  // ------------------------------------------------------------------

  /** `strcasecmp(a, b) == 0`. */
  predicate SameName(a: string, b: string) {
    Lower(a) == Lower(b)
  }

  /** `opcode_from_name` from entry `k` on: the first entry with the name, or -1. */
  function OpFrom(name: string, k: nat): (op: int)
    ensures -1 <= op < OPCODES
    decreases OPCODES - k
  {
    if k >= OPCODES then -1 else if SameName(TableName(k), name) then k else OpFrom(name, k + 1)
  }

  /** The search loop. */
  method OpcodeFromName(name: string) returns (op: int)
    ensures op == OpFrom(name, 0)
  {
    hide SameName, TableName, Identifies;
    var e := 0;
    while e < OPCODES
      invariant 0 <= e <= OPCODES
      invariant OpFrom(name, e) == OpFrom(name, 0)
    {
      if SameName(TableName(e), name) {
        return e;
      }
      e := e + 1;
    }
    return -1;
  }

  lemma SameSignature(a: string, b: string)
    requires SameName(a, b)
    ensures |a| == |b| && Signature(a) == Signature(b)
  {
    assert |a| == |Lower(a)| == |Lower(b)| == |b|;
    if |a| >= 2 {
      assert forall i :: 0 <= i < |a| ==> LowerChar(a[i]) == Lower(a)[i] == Lower(b)[i] == LowerChar(b[i]);
    }
  }

  lemma CapitalsSame(upper: string, name: string)
    requires Capitals(upper, name)
    ensures SameName(name, upper)
  {
  }

  /** The search finds an entry under any spelling of its name, and no other entry has that name. */
  lemma {:induction false} OpFound(op: nat, name: string, k: nat)
    requires k <= op < OPCODES && SameName(TableName(op), name)
    ensures OpFrom(name, k) == op
    decreases op - k
  {
    hide OpOfSignature, SameName, Signature, TableName;
    if k < op {
      if SameName(TableName(k), name) {
        SameSignature(TableName(k), name);
        SameSignature(TableName(op), name);
      }
      OpFound(op, name, k + 1);
    }
  }

  lemma {:induction false} OpNotFound(name: string, k: nat)
    requires OpOfSignature(Signature(name)) == -1
    ensures OpFrom(name, k) == -1
    decreases OPCODES - k
  {
    hide OpOfSignature, SameName, Signature, TableName;
    if k < OPCODES {
      if SameName(TableName(k), name) {
        SameSignature(TableName(k), name);
      }
      OpNotFound(name, k + 1);
    }
  }

  /** A printed name is looked up as the opcode it was printed for; "UNKNOWN" is nobody's name. */
  lemma NameRoundTrip(op: nat)
    ensures OpFrom(PrintName(op), 0) == if op < OPCODES then op else -1
  {
    if op < OPCODES {
      hide TableName, PrintName, Capitals, Identifies;
      CapitalsSame(PrintName(op), TableName(op));
      OpFound(op, PrintName(op), 0);
    } else {
      assert OpOfSignature(Signature("UNKNOWN")) == -1;
      OpNotFound("UNKNOWN", 0);
    }
  }

  predicate PrintChar(c: char) { 'A' <= c <= 'Z' || c == '_' }

  lemma PrintedChars(op: nat)
    ensures 2 <= |PrintName(op)| <= 16
    ensures forall i :: 0 <= i < |PrintName(op)| ==> PrintChar(PrintName(op)[i])
  {
    if op < OPCODES {
      hide OpOfSignature, Signature, TableName, PrintName;
      assert Identifies(TableName(op), op) && Capitals(PrintName(op), TableName(op));
    }
  }

  lemma SmallByte(op: nat)
    requires op < OPCODES
    ensures (op as bv8) as nat == op && op as bv8 < 0x80
  {
  }
}
