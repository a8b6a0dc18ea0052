/** The VM as a value: its state, every instruction handler of funcs.c and the virtual clock.
    Handlers that call libm or read the wall clock take their value from an `Env`. */
module Machine {
  import opened Words
  import opened Encoding
  import opened OpTable
  import opened Timers
  import opened VmStrings
  import Num = WordNumbers

  const REG_COUNT: nat := 256
  const VM_MEM_BYTES: nat := 0x400_0000

  /** What an external handler (floating point, date and time) returns: by opcode, operands B and C, and
      the number of instructions executed before. */
  type Env = (nat, bv32, bv32, nat) -> bv32

  /** Counters, edge detectors and latches, one of each per id. */
  datatype Banks = Banks(ctu: seq<Uint32>, ctd: seq<Uint32>, ctud: seq<Uint32>,
                         ctuPrev: seq<bool>, ctdPrev: seq<bool>, ctudUp: seq<bool>, ctudDown: seq<bool>,
                         rising: seq<bool>, falling: seq<bool>, both: seq<bool>, rs: seq<bool>, sr: seq<bool>)
  {
    predicate Valid() {
      |ctu| == |ctd| == |ctud| == MAX_TIMERS && |ctuPrev| == |ctdPrev| == |ctudUp| == |ctudDown| == MAX_TIMERS &&
      |rising| == |falling| == |both| == |rs| == |sr| == MAX_TIMERS
    }

    function WithUp(i: nat, v: Uint32, input: bool): (r: Banks)
      requires Valid() && i < MAX_TIMERS
      ensures r.Valid()
    {
      this.(ctu := ctu[i := v], ctuPrev := ctuPrev[i := input])
    }

    function WithDown(i: nat, v: Uint32, input: bool): (r: Banks)
      requires Valid() && i < MAX_TIMERS
      ensures r.Valid()
    {
      this.(ctd := ctd[i := v], ctdPrev := ctdPrev[i := input])
    }

    function WithUpDown(i: nat, v: Uint32, up: bool, down: bool): (r: Banks)
      requires Valid() && i < MAX_TIMERS
      ensures r.Valid()
    {
      this.(ctud := ctud[i := v], ctudUp := ctudUp[i := up], ctudDown := ctudDown[i := down])
    }
  }

  /** The five timer arrays. */
  datatype Rows = Rows(ton: seq<TimerState>, tof: seq<TimerState>, tp: seq<TimerState>, tonr: seq<TimerState>, tofr: seq<TimerState>)
  {
    predicate Valid() { |ton| == |tof| == |tp| == |tonr| == |tofr| == MAX_TIMERS }

    function Row(k: Kind): seq<TimerState> {
      match k
      case TON => ton
      case TOF => tof
      case TP => tp
      case TONR => tonr
      case TOFR => tofr
    }

    function With(k: Kind, i: nat, t: TimerState): (r: Rows)
      requires Valid() && i < MAX_TIMERS
      ensures r.Valid()
      ensures forall l, j :: 0 <= j < MAX_TIMERS ==> r.Row(l)[j] == if l == k && j == i then t else Row(l)[j]
    {
      match k
      case TON => this.(ton := ton[i := t])
      case TOF => this.(tof := tof[i := t])
      case TP => this.(tp := tp[i := t])
      case TONR => this.(tonr := tonr[i := t])
      case TOFR => this.(tofr := tofr[i := t])
    }

    /** `update_all_timers`. */
    function Pass(now: nat): (r: Rows)
      requires Valid()
      ensures r.Valid()
      ensures forall k, j :: 0 <= j < MAX_TIMERS ==> r.Row(k)[j] == Update(k, Row(k)[j], now)
    {
      Rows(PassRow(TON, ton, now), PassRow(TOF, tof, now), PassRow(TP, tp, now), PassRow(TONR, tonr, now), PassRow(TOFR, tofr, now))
    }
  }

  function PassRow(k: Kind, row: seq<TimerState>, now: nat): (r: seq<TimerState>)
    ensures |r| == |row| && forall j :: 0 <= j < |row| ==> r[j] == Update(k, row[j], now)
  {
    seq(|row|, j requires 0 <= j < |row| => Update(k, row[j], now))
  }

  datatype Machine = Machine(pc: Uint32, reg: seq<bv32>, mem: Bytes, running: bool, stop: bool, exitCode: int,
                             timeMs: nat, nsAccum: nat, executed: nat, rows: Rows, banks: Banks)
  {
    predicate Valid() {
      |reg| == REG_COUNT && |mem| <= VM_MEM_BYTES && rows.Valid() && banks.Valid()
    }
  }

  function Zeros(): (r: seq<Uint32>) ensures |r| == MAX_TIMERS { seq(MAX_TIMERS, i => 0) }

  function Off(): (r: seq<bool>) ensures |r| == MAX_TIMERS { seq(MAX_TIMERS, i => false) }

  const NO_BANKS := Banks(Zeros(), Zeros(), Zeros(), Off(), Off(), Off(), Off(), Off(), Off(), Off(), Off(), Off())

  function IdleRow(): (r: seq<TimerState>) ensures |r| == MAX_TIMERS { seq(MAX_TIMERS, i => IDLE) }

  const IDLE_ROWS := Rows(IdleRow(), IdleRow(), IdleRow(), IdleRow(), IdleRow())

  /** `vm_create`, with the memory size as a parameter. */
  function Created(bytes: nat): (m: Machine)
    requires bytes <= VM_MEM_BYTES
    ensures m.Valid() && |m.mem| == bytes
  {
    Machine(0, seq(REG_COUNT, i => 0), seq(bytes, i => 0), true, false, 0, 0, 0, 0, IDLE_ROWS, NO_BANKS)
  }

  /** The clock and the instruction count are the same. */
  predicate SameClock(a: Machine, b: Machine) {
    a.timeMs == b.timeMs && a.nsAccum == b.nsAccum && a.executed == b.executed
  }

  // ------------------------------------------------------------------
  // Operands
  // ------------------------------------------------------------------

  function RegA(w: bv32): (r: nat) ensures r < REG_COUNT { FieldA(w) as nat }

  function RegB(w: bv32): (r: nat) ensures r < REG_COUNT { FieldB(w) as nat }

  function RegC(w: bv32): (r: nat) ensures r < REG_COUNT { FieldC(w) as nat }

  /** `Cv_or_imm`. */
  function CValue(w: bv32, reg: seq<bv32>): bv32
    requires |reg| == REG_COUNT
  {
    if HasImm(w) then SignExtend(FieldC(w) as bv32) else reg[RegC(w)]
  }

  function Flag(b: bool): bv32 { if b then 1 else 0 }

  // ------------------------------------------------------------------
  // Memory words
  // ------------------------------------------------------------------

  /** `vm_mr32`. */
  function WordAt(m: Bytes, a: nat): bv32
    requires a + 4 <= |m|
  {
    WordOf(m[a], m[a + 1], m[a + 2], m[a + 3])
  }

  /** `vm_mw32`. */
  function PutWord(m: Bytes, a: nat, w: bv32): (r: Bytes)
    requires a + 4 <= |m|
    ensures |r| == |m|
  {
    Write(m, a, LittleEndian(w))
  }

  // ------------------------------------------------------------------
  // Handlers
  // ------------------------------------------------------------------

  /** Arithmetic, logic and comparison. */
  predicate IsAlu(op: nat) { op <= 4 || op == 6 || 17 <= op <= 26 || op == 31 || op == 32 }

  /** libm and wall-clock handlers. */
  predicate IsExternal(op: nat) { op == 5 || 7 <= op <= 16 || 27 <= op <= 30 || 33 <= op <= 38 }

  /** String handlers that write memory. */
  predicate IsEdit(op: nat) { 40 <= op <= 46 }

  /** Unsigned division and its remainder, on the numbers the words stand for. */
  function Quotient(b: bv32, c: bv32): bv32 {
    if c != 0 then Num.DivisionFits(b, c); Num.Word(Num.Ratio(Num.Number(b), Num.Number(c))) else 0
  }

  function Remainder(b: bv32, c: bv32): bv32 {
    if c != 0 then Num.DivisionFits(b, c); Num.Word(Num.Rest(Num.Number(b), Num.Number(c))) else 0
  }

  function Magnitude(b: bv32): bv32 { if b & 0x8000_0000 != 0 then 0 - b else b }

  function And(b: bv32, c: bv32): bv32 { b & c }

  function Or(b: bv32, c: bv32): bv32 { b | c }

  function ExclusiveOr(b: bv32, c: bv32): bv32 { b ^ c }

  function Not(b: bv32): bv32 { !b }

  function Greater(b: bv32, c: bv32): bv32 { Flag(b > c) }

  function Less(b: bv32, c: bv32): bv32 { Flag(b < c) }

  function AtLeast(b: bv32, c: bv32): bv32 { Flag(b >= c) }

  function AtMost(b: bv32, c: bv32): bv32 { Flag(b <= c) }

  function Alu(op: nat, b: bv32, c: bv32): bv32 {
    match op
    case 0 => Num.Sum(b, c)
    case 1 => Num.Difference(b, c)
    case 2 => Num.Product(b, c)
    case 3 => Quotient(b, c)
    case 4 => Remainder(b, c)
    case 6 => Magnitude(b)
    case 17 => And(b, c)
    case 18 => Or(b, c)
    case 19 => ExclusiveOr(b, c)
    case 20 => Not(b)
    case 21 => Flag(b == c)
    case 22 => Flag(b != c)
    case 23 => Greater(b, c)
    case 24 => AtLeast(b, c)
    case 25 => Less(b, c)
    case 26 => AtMost(b, c)
    case 31 => Num.Sum(b, c)
    case 32 => Num.Difference(b, c)
    case _ => 0
  }

  /** The string edits by opcode, on the values in registers A, B and C and the operand C. */
  function EditBytes(op: nat, m: Bytes, a: nat, b: nat, c: nat, n: nat): (r: Bytes)
    ensures |r| == |m|
  {
    match op
    case 40 => Concat(m, b, c)
    case 41 => Left(m, b, n)
    case 42 => Right(m, b, n)
    case 43 => Mid(m, b, n)
    case 44 => Insert(m, a, b, n)
    case 45 => Delete(m, a, b, n)
    case 46 => Replace(m, a, b, n)
    case _ => m
  }

  function Edit(op: nat, w: bv32, m: Machine): (r: Bytes)
    requires m.Valid()
    ensures |r| == |m.mem|
  {
    EditBytes(op, m.mem, m.reg[RegA(w)] as nat, m.reg[RegB(w)] as nat, m.reg[RegC(w)] as nat, CValue(w, m.reg) as nat)
  }

  function SetA(m: Machine, w: bv32, v: bv32): (r: Machine)
    requires m.Valid()
    ensures r.Valid() && r.mem == m.mem && SameClock(m, r)
  {
    m.(reg := m.reg[RegA(w) := v])
  }

  /** Counters, edge detectors and latches change together with register A. */
  function SetBanks(m: Machine, b: Banks, w: bv32, v: bv32): (r: Machine)
    requires m.Valid() && b.Valid()
    ensures r.Valid() && r.mem == m.mem && SameClock(m, r)
  {
    SetA(m.(banks := b), w, v)
  }

  /** `op_ton`, `op_tof`, `op_tp`: the id is the immediate, and the register with the same number holds the preset. */
  function TimerOp(k: Kind, w: bv32, m: Machine): (r: Machine)
    requires m.Valid()
    ensures r.Valid() && r.mem == m.mem && SameClock(m, r)
  {
    var id := RegC(w);
    if !HasImm(w) || id >= MAX_TIMERS then m
    else
      var t := Set(k, m.rows.Row(k)[id], m.reg[RegB(w)] != 0, m.reg[id] as nat, m.timeMs);
      SetA(m.(rows := m.rows.With(k, id, t)), w, Flag(t.output))
  }

  /** A saturating step up or down on an edge. */
  function StepUp(v: Uint32, edge: bool): Uint32 {
    if edge && v < U32 - 1 then v + 1 else v
  }

  function StepDown(v: Uint32, edge: bool): Uint32 {
    if edge && v > 0 then v - 1 else v
  }

  function AtPreset(v: Uint32, preset: bv32): bv32 { Flag(v >= preset as nat) }

  function UnderPreset(v: Uint32, preset: bv32): bv32 { Flag(v <= preset as nat) }

  function ToWord(v: Uint32): bv32 { v as bv32 }

  /** `op_ctu`. */
  function CountUp(w: bv32, m: Machine): (r: Machine)
    requires m.Valid()
    ensures r.Valid() && r.mem == m.mem && SameClock(m, r)
  {
    var id := m.reg[RegA(w)] as nat;
    if id >= MAX_TIMERS then m
    else
      var input := m.reg[RegB(w)] != 0;
      var v := StepUp(m.banks.ctu[id], input && !m.banks.ctuPrev[id]);
      SetBanks(m, m.banks.WithUp(id, v, input), w, AtPreset(v, CValue(w, m.reg)))
  }

  /** `op_ctd`. */
  function CountDown(w: bv32, m: Machine): (r: Machine)
    requires m.Valid()
    ensures r.Valid() && r.mem == m.mem && SameClock(m, r)
  {
    var id := m.reg[RegA(w)] as nat;
    if id >= MAX_TIMERS then m
    else
      var input := m.reg[RegB(w)] != 0;
      var v := StepDown(m.banks.ctd[id], input && !m.banks.ctdPrev[id]);
      SetBanks(m, m.banks.WithDown(id, v, input), w, UnderPreset(v, CValue(w, m.reg)))
  }

  /** `op_ctud`. */
  function CountUpDown(w: bv32, m: Machine): (r: Machine)
    requires m.Valid()
    ensures r.Valid() && r.mem == m.mem && SameClock(m, r)
  {
    var id := m.reg[RegA(w)] as nat;
    if id >= MAX_TIMERS then m
    else
      var up, down := m.reg[RegB(w)] != 0, m.reg[RegC(w)] != 0;
      var raised := StepUp(m.banks.ctud[id], up && !m.banks.ctudUp[id]);
      var v := StepDown(raised, down && !m.banks.ctudDown[id]);
      SetBanks(m, m.banks.WithUpDown(id, v, up, down), w, ToWord(v))
  }

  /** `op_len`. */
  function Length(m: Bytes, a: nat): bv32
    requires |m| <= VM_MEM_BYTES
  {
    if a >= |m| then 0 else StrLen(m, a) as bv32
  }

  /** `op_limit`. */
  function Limit(x: bv32, low: bv32, high: bv32): bv32 {
    var y := if Num.Below(x, low) then low else x;
    if Num.Below(high, y) then high else y
  }

  /** A word of memory, or 0 out of bounds. */
  function WordOrZero(m: Bytes, a: nat): bv32 {
    if a + 4 > |m| then 0 else WordAt(m, a)
  }

  /** The address `op_mux` reads and `op_demux` writes: base B, index C, in words. */
  function Indexed(w: bv32, m: Machine): nat
    requires m.Valid()
  {
    m.reg[RegB(w)] as nat + (CValue(w, m.reg) as nat) * 4
  }

  /** `op_len`, `op_limit`, `op_sel` and `op_mux`: the value they put into A. */
  function Selected(op: nat, w: bv32, m: Machine): bv32
    requires m.Valid()
  {
    var b, c := m.reg[RegB(w)], CValue(w, m.reg);
    match op
    case 39 => Length(m.mem, b as nat)
    case 53 => Limit(m.reg[RegA(w)], b, c)
    case 54 =>
      var base := m.reg[RegC(w)] as nat;
      WordOrZero(m.mem, if b != 0 then base else base + 4)
    case 55 => WordOrZero(m.mem, Indexed(w, m))
    case _ => 0
  }

  /** The id of an edge detector: the immediate, or else the value in register A. */
  function EdgeId(w: bv32, m: Machine): nat
    requires m.Valid()
  {
    if HasImm(w) then RegC(w) else m.reg[RegA(w)] as nat
  }

  /** What the detectors `op_rising_edge`, `op_falling_edge` and `op_edge_both` report. */
  predicate EdgeSeen(op: nat, b: Banks, id: nat, input: bool)
    requires b.Valid() && id < MAX_TIMERS
  {
    match op
    case 56 => input && !b.rising[id]
    case 57 => !input && b.falling[id]
    case _ => input != b.both[id]
  }

  /** What they store. */
  function EdgeStored(op: nat, b: Banks, id: nat, input: bool): (r: Banks)
    requires b.Valid() && id < MAX_TIMERS
    ensures r.Valid()
  {
    match op
    case 56 => b.(rising := b.rising[id := input])
    case 57 => b.(falling := b.falling[id := input])
    case _ => b.(both := b.both[id := input])
  }

  /** The three edge detectors. */
  function Edge(op: nat, w: bv32, m: Machine): (r: Machine)
    requires m.Valid()
    ensures r.Valid() && r.mem == m.mem && SameClock(m, r)
  {
    var id := EdgeId(w, m);
    var input := m.reg[RegB(w)] != 0;
    if id >= MAX_TIMERS then SetA(m, w, 0)
    else SetBanks(m, EdgeStored(op, m.banks, id, input), w, Flag(EdgeSeen(op, m.banks, id, input)))
  }

  /** `op_rs_latch`, `op_sr_latch`: here the id is the immediate or the number of register A. */
  function Latch(op: nat, w: bv32, m: Machine): (r: Machine)
    requires m.Valid()
    ensures r.Valid() && r.mem == m.mem && SameClock(m, r)
  {
    var id := if HasImm(w) then RegC(w) else RegA(w);
    var s, reset := m.reg[RegB(w)] != 0, m.reg[RegC(w)] != 0;
    if id >= MAX_TIMERS then SetA(m, w, 0)
    else if op == 59 then
      var q := if reset then false else if s then true else m.banks.rs[id];
      SetBanks(m, m.banks.(rs := m.banks.rs[id := q]), w, Flag(q))
    else
      var q := if s then true else if reset then false else m.banks.sr[id];
      SetBanks(m, m.banks.(sr := m.banks.sr[id := q]), w, Flag(q))
  }

  /** `op_demux`. */
  function Demux(w: bv32, m: Machine): (r: Bytes)
    requires m.Valid()
    ensures |r| == |m.mem|
  {
    var addr := Indexed(w, m);
    if addr + 4 > |m.mem| then m.mem else PutWord(m.mem, addr, m.reg[RegA(w)])
  }

  /** Whether a jump is taken: always, or by register C. */
  predicate Taken(op: nat, w: bv32, m: Machine)
    requires m.Valid()
  {
    op == 62 || (op == 63 && m.reg[RegC(w)] != 0) || (op == 64 && m.reg[RegC(w)] == 0)
  }

  /** The three jumps, with an extended immediate or register B as absolute target. */
  function Jump(op: nat, w: bv32, m: Machine): Uint32
    requires m.Valid()
  {
    if !Taken(op, w, m) then m.pc
    else if HasImm(w) then SignExtend(FieldC(w) as bv32) as nat
    else m.reg[RegB(w)] as nat
  }

  /** `vm->op_ex[op](vm, w)`. */
  function Exec(op: nat, w: bv32, m: Machine, env: Env): (r: Machine)
    requires m.Valid() && op < OPCODES
  {
    if IsAlu(op) then SetA(m, w, Alu(op, m.reg[RegB(w)], CValue(w, m.reg)))
    else if IsExternal(op) then SetA(m, w, env(op, m.reg[RegB(w)], CValue(w, m.reg), m.executed))
    else if IsEdit(op) then m.(mem := Edit(op, w, m))
    else match op
      case 47 => TimerOp(TON, w, m)
      case 48 => TimerOp(TOF, w, m)
      case 49 => TimerOp(TP, w, m)
      case 50 => CountUp(w, m)
      case 51 => CountDown(w, m)
      case 52 => CountUpDown(w, m)
      case 56 => Edge(op, w, m)
      case 57 => Edge(op, w, m)
      case 58 => Edge(op, w, m)
      case 59 => Latch(op, w, m)
      case 60 => Latch(op, w, m)
      case 61 => m.(mem := Demux(w, m))
      case 62 => m.(pc := Jump(op, w, m))
      case 63 => m.(pc := Jump(op, w, m))
      case 64 => m.(pc := Jump(op, w, m))
      case 65 => m.(exitCode := if HasImm(w) then RegC(w) else RegA(w), running := false, stop := true)
      case 66 => m.(running := false, stop := true)
      case 67 => m
      case _ => SetA(m, w, Selected(op, w, m))
  }

  /** No handler loses a register, a byte of memory or a bank entry. */
  lemma ExecValid(op: nat, w: bv32, m: Machine, env: Env)
    requires m.Valid() && op < OPCODES
    ensures var r := Exec(op, w, m, env); r.Valid() && |r.mem| == |m.mem|
  {
    hide Alu, Edit, Selected, CValue, Jump, Demux, TimerOp, CountUp, CountDown, CountUpDown, Edge, Latch, RegA, RegB, RegC, SetA;
  }

  // ------------------------------------------------------------------
  // The clock
  // ------------------------------------------------------------------

  const NS_PER_MS: nat := 1000000

  /** The duration of one instruction, and none when the clock rate is zero. */
  function InstrNs(rate: nat): nat {
    if rate == 0 then 0 else 1000000000 / rate
  }

  /** `vm_update_time_after_instruction` without tick timing. */
  function Tick(m: Machine, rate: nat): (r: Machine)
    ensures m.Valid() ==> r.Valid()
  {
    if rate == 0 then m
    else
      var total := m.nsAccum + InstrNs(rate);
      var ms := total / NS_PER_MS;
      if ms != 0 then m.(timeMs := m.timeMs + ms, nsAccum := total - ms * NS_PER_MS) else m.(nsAccum := total)
  }

  /** The clock in nanoseconds. */
  function Nanos(m: Machine): nat {
    m.timeMs * NS_PER_MS + m.nsAccum
  }
}
