/** The function blocks by mnemonic: which timer an instruction drives and with what, what the counters
    show, which edges and which latches win. */
module Blocks {
  import opened Words
  import opened Encoding
  import opened OpTable
  import opened Timers
  import opened VmStrings
  import opened Machine
  import opened Instructions
  import opened Effects
  import Num = WordNumbers

  // ------------------------------------------------------------------
  // Timers
  // ------------------------------------------------------------------

  /** The opcode that drives a kind of timer: there is none for the retentive ones. */
  function TimerCode(k: Kind): nat
    requires k == TON || k == TOF || k == TP
  {
    if k == TON then 47 else if k == TOF then 48 else 49
  }

  function TimerName(k: Kind): string
    requires k == TON || k == TOF || k == TP
  {
    if k == TON then "TON" else if k == TOF then "TOF" else "TP"
  }

  /** The instruction calls timer `id` of a kind with register B as input and register `id` as preset,
      puts its output into register A and changes nothing else. */
  predicate Drives(k: Kind, id: nat, x: Operands, m: Machine, r: Machine)
    requires m.Valid() && r.Valid() && id < MAX_TIMERS
  {
    var t := Set(k, m.rows.Row(k)[id], m.reg[Index(x.b)] != 0, Num.Number(m.reg[id]), m.timeMs);
    && r == m.(rows := r.rows, reg := m.reg[Index(x.a) := Num.Word(Truth(t.output))])
    && forall l, j :: 0 <= j < MAX_TIMERS ==> r.rows.Row(l)[j] == if l == k && j == id then t else m.rows.Row(l)[j]
  }

  lemma FlagWord(b: bool)
    ensures Flag(b) == Num.Word(Truth(b))
  {
    hide Num.Word, Num.Number;
    FlagNumber(b);
    Num.WordNumber(Flag(b));
  }

  lemma TimerIs(k: Kind, op: nat, x: Operands, m: Machine, env: Env)
    requires m.Valid() && (k == TON || k == TOF || k == TP) && op == TimerCode(k)
    ensures Exec(op, Coded(op, x), m, env) == TimerOp(k, Coded(op, x), m)
  {
    hide Coded, TimerOp;
  }

  /** The same on a word with known fields. */
  lemma TimerFields(k: Kind, w: bv32, a: nat, b: nat, id: nat, imm: bool, m: Machine)
    requires m.Valid() && RegA(w) == a && RegB(w) == b && RegC(w) == id && HasImm(w) == imm && a < REG_COUNT && b < REG_COUNT
    ensures TimerOp(k, w, m) ==
            if imm && id < MAX_TIMERS then
              var t := Set(k, m.rows.Row(k)[id], m.reg[b] != 0, m.reg[id] as nat, m.timeMs);
              m.(rows := m.rows.With(k, id, t), reg := m.reg[a := Flag(t.output)])
            else m
  {
    hide RegA, RegB, RegC, HasImm, Set, Flag, Rows.With, Rows.Row;
  }

  lemma TimerEffect(k: Kind, op: nat, x: Operands, m: Machine)
    requires m.Valid() && op < OPCODES
    ensures var id, r := Index(x.c), TimerOp(k, Coded(op, x), m);
            if x.imm && id < MAX_TIMERS then
              var t := Set(k, m.rows.Row(k)[id], m.reg[Index(x.b)] != 0, Num.Number(m.reg[id]), m.timeMs);
              r == m.(rows := m.rows.With(k, id, t), reg := m.reg[Index(x.a) := Num.Word(Truth(t.output))])
            else r == m
  {
    hide TimerOp, Coded, RegA, RegB, RegC, HasImm, Set, Flag, Num.Word, Truth, Rows.With, Rows.Row;
    CodedFields(op, x);
    TimerFields(k, Coded(op, x), Index(x.a), Index(x.b), Index(x.c), x.imm, m);
    FlagWord(true);
    FlagWord(false);
  }

  lemma WithDrives(k: Kind, id: nat, x: Operands, m: Machine)
    requires m.Valid() && id < MAX_TIMERS
    ensures var t := Set(k, m.rows.Row(k)[id], m.reg[Index(x.b)] != 0, Num.Number(m.reg[id]), m.timeMs);
            Drives(k, id, x, m, m.(rows := m.rows.With(k, id, t), reg := m.reg[Index(x.a) := Num.Word(Truth(t.output))]))
  {
    hide Set, Num.Word, Truth, Rows.With;
  }

  /** TON, TOF and TP with an immediate below 16 call that timer; otherwise they do nothing. */
  lemma TimerCalls(k: Kind, x: Operands, m: Machine, env: Env)
    requires m.Valid() && (k == TON || k == TOF || k == TP)
    ensures OpFrom(TimerName(k), 0) >= 0 && Run(TimerName(k), x, m, env).Valid()
    ensures var r := Run(TimerName(k), x, m, env);
            if x.imm && Index(x.c) < MAX_TIMERS then Drives(k, Index(x.c), x, m, r) else r == m
  {
    hide Exec, PrintName, Run, Coded, Drives, TimerOp, Set, Num.Word, Truth, Rows.With;
    BlockNames();
    var op := TimerCode(k);
    Runs(op, TimerName(k), x, m, env);
    TimerIs(k, op, x, m, env);
    TimerEffect(k, op, x, m);
    if x.imm && Index(x.c) < MAX_TIMERS {
      WithDrives(k, Index(x.c), x, m);
    }
  }

  // ------------------------------------------------------------------
  // Counters
  // ------------------------------------------------------------------

  /** A count one up or down on a rising edge, within 0 and 2^32 - 1. */
  function Up(v: nat, rises: bool): nat { if rises then Minimum(v + 1, U32 - 1) else v }

  function Down(v: nat, rises: bool): nat { if rises then Maximum(v, 1) - 1 else v }

  /** The id of a counter: the value of register A. */
  function CounterId(x: Operands, m: Machine): nat
    requires m.Valid()
  {
    Num.Number(m.reg[Index(x.a)])
  }

  lemma CounterIs(x: Operands, m: Machine, env: Env)
    requires m.Valid()
    ensures Exec(50, Coded(50, x), m, env) == CountUp(Coded(50, x), m)
    ensures Exec(51, Coded(51, x), m, env) == CountDown(Coded(51, x), m)
    ensures Exec(52, Coded(52, x), m, env) == CountUpDown(Coded(52, x), m)
  {
    hide Coded, CountUp, CountDown, CountUpDown;
  }

  lemma StepsAre(v: Uint32, edge: bool)
    ensures StepUp(v, edge) == Up(v, edge) && StepDown(v, edge) == Down(v, edge)
  {
  }

  lemma FlagsAre(v: Uint32, preset: bv32)
    ensures AtPreset(v, preset) == Num.Word(Truth(v >= Num.Number(preset)))
    ensures UnderPreset(v, preset) == Num.Word(Truth(v <= Num.Number(preset)))
  {
    FlagWord(v >= Num.Number(preset));
    FlagWord(v <= Num.Number(preset));
    hide Num.Word, Truth, Flag;
  }

  /** One up on a rising register B; register A tells whether the count has reached the preset. */
  function CountedUp(x: Operands, m: Machine): Machine
    requires m.Valid()
  {
    var id, input := CounterId(x, m), m.reg[Index(x.b)] != 0;
    if id >= MAX_TIMERS then m
    else
      var v := Up(m.banks.ctu[id], input && !m.banks.ctuPrev[id]);
      m.(banks := m.banks.WithUp(id, v, input), reg := m.reg[Index(x.a) := Num.Word(Truth(v >= x.C(m)))])
  }

  /** One down on a rising register B; register A tells whether the count is at or below the preset. */
  function CountedDown(x: Operands, m: Machine): Machine
    requires m.Valid()
  {
    var id, input := CounterId(x, m), m.reg[Index(x.b)] != 0;
    if id >= MAX_TIMERS then m
    else
      var v := Down(m.banks.ctd[id], input && !m.banks.ctdPrev[id]);
      m.(banks := m.banks.WithDown(id, v, input), reg := m.reg[Index(x.a) := Num.Word(Truth(v <= x.C(m)))])
  }

  lemma CountUpEffect(x: Operands, m: Machine)
    requires m.Valid()
    ensures CountUp(Coded(50, x), m) == CountedUp(x, m)
  {
    hide Coded, RegA, RegB, CValue, StepUp, Up, AtPreset, Num.Word, Truth, Operands.CWord, Operands.C;
    CodedFields(50, x);
    CodedThird(50, x, m);
    if CounterId(x, m) < MAX_TIMERS {
      var id := CounterId(x, m);
      var edge := m.reg[Index(x.b)] != 0 && !m.banks.ctuPrev[id];
      StepsAre(m.banks.ctu[id], edge);
      FlagsAre(StepUp(m.banks.ctu[id], edge), x.CWord(m));
    }
  }

  lemma CountDownEffect(x: Operands, m: Machine)
    requires m.Valid()
    ensures CountDown(Coded(51, x), m) == CountedDown(x, m)
  {
    hide Coded, RegA, RegB, CValue, StepDown, Down, UnderPreset, Num.Word, Truth, Operands.CWord, Operands.C;
    CodedFields(51, x);
    CodedThird(51, x, m);
    if CounterId(x, m) < MAX_TIMERS {
      var id := CounterId(x, m);
      var edge := m.reg[Index(x.b)] != 0 && !m.banks.ctdPrev[id];
      StepsAre(m.banks.ctd[id], edge);
      FlagsAre(StepDown(m.banks.ctd[id], edge), x.CWord(m));
    }
  }

  /** CTU counts up. */
  lemma CountsUp(x: Operands, m: Machine, env: Env)
    requires m.Valid()
    ensures OpFrom("CTU", 0) >= 0 && Run("CTU", x, m, env) == CountedUp(x, m)
  {
    hide Exec, PrintName, Run, Coded, CountUp, CountDown, CountUpDown, CountedUp;
    BlockNames();
    Runs(50, "CTU", x, m, env);
    CounterIs(x, m, env);
    CountUpEffect(x, m);
  }

  /** CTD counts down. */
  lemma CountsDown(x: Operands, m: Machine, env: Env)
    requires m.Valid()
    ensures OpFrom("CTD", 0) >= 0 && Run("CTD", x, m, env) == CountedDown(x, m)
  {
    hide Exec, PrintName, Run, Coded, CountUp, CountDown, CountUpDown, CountedDown;
    BlockNames();
    Runs(51, "CTD", x, m, env);
    CounterIs(x, m, env);
    CountDownEffect(x, m);
  }

  /** An up-down counter after the inputs `up` and `down`: up first, then down. */
  function UpDown(b: Banks, id: nat, up: bool, down: bool): (r: Banks)
    requires b.Valid() && id < MAX_TIMERS
    ensures r.Valid()
  {
    b.WithUpDown(id, Down(Up(b.ctud[id], up && !b.ctudUp[id]), down && !b.ctudDown[id]), up, down)
  }

  /** Register B counts up and register C down; register A shows the count. */
  function CountedBoth(x: Operands, m: Machine): Machine
    requires m.Valid()
  {
    var id := CounterId(x, m);
    if id >= MAX_TIMERS then m
    else
      var b := UpDown(m.banks, id, m.reg[Index(x.b)] != 0, m.reg[Index(x.c)] != 0);
      m.(banks := b, reg := m.reg[Index(x.a) := Num.Word(b.ctud[id])])
  }

  lemma SameWord(v: Uint32)
    ensures ToWord(v) == Num.Word(v)
  {
  }

  lemma CountBothFields(w: bv32, a: nat, b: nat, c: nat, m: Machine)
    requires m.Valid() && RegA(w) == a && RegB(w) == b && RegC(w) == c && a < REG_COUNT && b < REG_COUNT && c < REG_COUNT
    ensures var id := m.reg[a] as nat;
            CountUpDown(w, m) ==
            if id >= MAX_TIMERS then m
            else
              var v := StepDown(StepUp(m.banks.ctud[id], m.reg[b] != 0 && !m.banks.ctudUp[id]), m.reg[c] != 0 && !m.banks.ctudDown[id]);
              m.(banks := m.banks.WithUpDown(id, v, m.reg[b] != 0, m.reg[c] != 0), reg := m.reg[a := ToWord(v)])
  {
    hide RegA, RegB, RegC, StepUp, StepDown, ToWord, Banks.WithUpDown;
  }

  lemma CountBothEffect(x: Operands, m: Machine)
    requires m.Valid()
    ensures CountUpDown(Coded(52, x), m) == CountedBoth(x, m)
  {
    hide CountUpDown, Coded, RegA, RegB, RegC, StepUp, StepDown, Up, Down, ToWord, Num.Word;
    CodedFields(52, x);
    CountBothFields(Coded(52, x), Index(x.a), Index(x.b), Index(x.c), m);
    if CounterId(x, m) < MAX_TIMERS {
      var id := CounterId(x, m);
      var v := m.banks.ctud[id];
      var u := m.reg[Index(x.b)] != 0 && !m.banks.ctudUp[id];
      var d := m.reg[Index(x.c)] != 0 && !m.banks.ctudDown[id];
      StepsAre(v, u);
      StepsAre(StepUp(v, u), d);
      SameWord(StepDown(StepUp(v, u), d));
    }
  }

  /** CTUD counts both. */
  lemma CountsBoth(x: Operands, m: Machine, env: Env)
    requires m.Valid()
    ensures OpFrom("CTUD", 0) >= 0 && Run("CTUD", x, m, env) == CountedBoth(x, m)
  {
    hide Exec, PrintName, Run, Coded, CountUp, CountDown, CountUpDown, CountedBoth;
    BlockNames();
    Runs(52, "CTUD", x, m, env);
    CounterIs(x, m, env);
    CountBothEffect(x, m);
  }

  datatype Pulse = Pulse(up: bool, down: bool)

  /** The up-down counter after a sequence of inputs. */
  function Counted(b: Banks, id: nat, inputs: seq<Pulse>): (r: Banks)
    requires b.Valid() && id < MAX_TIMERS
    ensures r.Valid()
    decreases |inputs|
  {
    if inputs == [] then b else Counted(UpDown(b, id, inputs[0].up, inputs[0].down), id, inputs[1..])
  }

  /** Rising edges of the up input less those of the down input. */
  function Net(up: bool, down: bool, inputs: seq<Pulse>): int
    decreases |inputs|
  {
    if inputs == [] then 0
    else (if inputs[0].up && !up then 1 else 0) - (if inputs[0].down && !down then 1 else 0) + Net(inputs[0].up, inputs[0].down, inputs[1..])
  }

  /** The count meets neither limit: no up at 2^32 - 1 and no down at 0. */
  predicate Free(v: int, up: bool, down: bool, inputs: seq<Pulse>)
    decreases |inputs|
  {
    inputs == [] ||
    var u, d := inputs[0].up && !up, inputs[0].down && !down;
    var raised := v + if u then 1 else 0;
    raised < U32 && (d ==> raised > 0) && Free(raised - (if d then 1 else 0), inputs[0].up, inputs[0].down, inputs[1..])
  }

  /** As long as it meets no limit CTUD shows where it started plus the rising edges of one input less
      those of the other. */
  lemma {:induction false} CtudCountsNet(b: Banks, id: nat, inputs: seq<Pulse>)
    requires b.Valid() && id < MAX_TIMERS && Free(b.ctud[id], b.ctudUp[id], b.ctudDown[id], inputs)
    ensures Counted(b, id, inputs).ctud[id] == b.ctud[id] + Net(b.ctudUp[id], b.ctudDown[id], inputs)
    decreases |inputs|
  {
    if inputs != [] {
      CtudCountsNet(UpDown(b, id, inputs[0].up, inputs[0].down), id, inputs[1..]);
    }
  }

  // ------------------------------------------------------------------
  // Edges
  // ------------------------------------------------------------------

  lemma SignalNames()
    ensures PrintName(56) == "RISING_EDGE" && PrintName(57) == "FALLING_EDGE" && PrintName(58) == "EDGE_BOTH"
    ensures PrintName(59) == "RS_LATCH" && PrintName(60) == "SR_LATCH"
  {
    hide ArithmeticPrinted, FunctionPrinted, LogicPrinted, TimePrinted, DatePrinted, TextPrinted, EditPrinted;
    hide BlockPrinted, ControlPrinted, TableName, Capitals, Identifies;
  }

  /** The id of an edge detector: the immediate or the value of register A. */
  function DetectorId(x: Operands, m: Machine): nat
    requires m.Valid()
  {
    if x.imm then x.c as nat else Num.Number(m.reg[Index(x.a)])
  }

  lemma EdgeIs(op: nat, x: Operands, m: Machine, env: Env)
    requires m.Valid() && 56 <= op <= 58
    ensures Exec(op, Coded(op, x), m, env) == Edge(op, Coded(op, x), m)
  {
    hide Coded, Edge;
  }

  /** A detector call: register A tells what was seen, or 0 for an id out of range. */
  function Detected(op: nat, x: Operands, m: Machine): Machine
    requires m.Valid()
  {
    var id, input := DetectorId(x, m), m.reg[Index(x.b)] != 0;
    if id >= MAX_TIMERS then m.(reg := m.reg[Index(x.a) := 0])
    else m.(banks := EdgeStored(op, m.banks, id, input), reg := m.reg[Index(x.a) := Flag(EdgeSeen(op, m.banks, id, input))])
  }

  lemma EdgeEffect(op: nat, x: Operands, m: Machine)
    requires m.Valid() && op < OPCODES
    ensures Edge(op, Coded(op, x), m) == Detected(op, x, m)
  {
    hide Coded, RegA, RegB, RegC, HasImm, EdgeStored, EdgeSeen, Flag;
    CodedFields(op, x);
  }

  lemma EdgeRun(op: nat, name: string, x: Operands, m: Machine, env: Env)
    requires m.Valid() && 56 <= op <= 58 && PrintName(op) == name
    ensures OpFrom(name, 0) == op && Run(name, x, m, env) == Detected(op, x, m)
  {
    hide PrintName, Exec, Run, Edge, Coded, Detected;
    Runs(op, name, x, m, env);
    EdgeIs(op, x, m, env);
    EdgeEffect(op, x, m);
  }

  /** What a detector reports after it has stored an input. */
  lemma SeenAfter(op: nat, b: Banks, id: nat, before: bool, after: bool)
    requires b.Valid() && id < MAX_TIMERS && 56 <= op <= 58
    ensures EdgeSeen(op, EdgeStored(op, b, id, before), id, after) ==
            if op == 56 then !before && after else if op == 57 then before && !after else before != after
  {
  }

  lemma DetectedReports(op: nat, name: string, x: Operands, m: Machine, env: Env)
    requires m.Valid() && 56 <= op <= 58 && PrintName(op) == name && DetectorId(x, m) < MAX_TIMERS
    ensures Reports(name, x, m, env, EdgeSeen(op, m.banks, DetectorId(x, m), m.reg[Index(x.b)] != 0))
  {
    EdgeRun(op, name, x, m, env);
    SignalNames();
    FlagWord(EdgeSeen(op, m.banks, DetectorId(x, m), m.reg[Index(x.b)] != 0));
    hide PrintName, Run, Flag, Num.Word, Truth;
  }

  /** Two calls of one detector on one id, with anything but edge memory changed in between. */
  predicate CalledTwice(name: string, x: Operands, m: Machine, y: Operands, n: Machine, env: Env) {
    m.Valid() && n.Valid() && OpFrom(name, 0) >= 0
    && DetectorId(x, m) == DetectorId(y, n) < MAX_TIMERS && n.banks == Run(name, x, m, env).banks
  }

  /** The second of two calls reports: RISING_EDGE that the input has come on, FALLING_EDGE that it has
      gone off, EDGE_BOTH either. */
  lemma EdgesReported(x: Operands, m: Machine, y: Operands, n: Machine, env: Env)
    requires m.Valid() && n.Valid()
    ensures var before, after := m.reg[Index(x.b)] != 0, n.reg[Index(y.b)] != 0;
            && (CalledTwice("RISING_EDGE", x, m, y, n, env) ==> Reports("RISING_EDGE", y, n, env, !before && after))
            && (CalledTwice("FALLING_EDGE", x, m, y, n, env) ==> Reports("FALLING_EDGE", y, n, env, before && !after))
            && (CalledTwice("EDGE_BOTH", x, m, y, n, env) ==> Reports("EDGE_BOTH", y, n, env, before != after))
  {
    hide PrintName, Reports, EdgeSeen, EdgeStored, CalledTwice;
    SignalNames();
    if CalledTwice("RISING_EDGE", x, m, y, n, env) {
      SecondCall(56, "RISING_EDGE", x, m, y, n, env);
    }
    if CalledTwice("FALLING_EDGE", x, m, y, n, env) {
      SecondCall(57, "FALLING_EDGE", x, m, y, n, env);
    }
    if CalledTwice("EDGE_BOTH", x, m, y, n, env) {
      SecondCall(58, "EDGE_BOTH", x, m, y, n, env);
    }
  }

  /** The instruction puts a truth value into register A and changes nothing but its own detector. */
  predicate Reports(name: string, x: Operands, m: Machine, env: Env, q: bool)
    requires m.Valid()
  {
    OpFrom(name, 0) >= 0 &&
    var r := Run(name, x, m, env);
    && r == m.(reg := m.reg[Index(x.a) := Num.Word(Truth(q))], banks := r.banks)
    && r.banks == m.banks.(rising := if name == "RISING_EDGE" then r.banks.rising else m.banks.rising,
                           falling := if name == "FALLING_EDGE" then r.banks.falling else m.banks.falling,
                           both := if name == "EDGE_BOTH" then r.banks.both else m.banks.both)
  }

  lemma SecondCall(op: nat, name: string, x: Operands, m: Machine, y: Operands, n: Machine, env: Env)
    requires 56 <= op <= 58 && PrintName(op) == name && CalledTwice(name, x, m, y, n, env)
    ensures var before, after := m.reg[Index(x.b)] != 0, n.reg[Index(y.b)] != 0;
            Reports(name, y, n, env, if op == 56 then !before && after else if op == 57 then before && !after else before != after)
  {
    hide PrintName, Run, EdgeSeen, EdgeStored, Reports;
    EdgeRun(op, name, x, m, env);
    DetectedReports(op, name, y, n, env);
    SeenAfter(op, m.banks, DetectorId(x, m), m.reg[Index(x.b)] != 0, n.reg[Index(y.b)] != 0);
  }

  /** The first call after power-on sees the input as having been off. */
  lemma FirstCall(op: nat, name: string, x: Operands, m: Machine, env: Env)
    requires m.Valid() && m.banks == NO_BANKS && 56 <= op <= 58 && PrintName(op) == name && DetectorId(x, m) < MAX_TIMERS
    ensures Reports(name, x, m, env, op != 57 && m.reg[Index(x.b)] != 0)
  {
    hide PrintName, Run, Reports;
    DetectedReports(op, name, x, m, env);
  }

  // ------------------------------------------------------------------
  // Latches
  // ------------------------------------------------------------------

  /** The id of a latch: the immediate or the number of register A. */
  function LatchId(x: Operands): nat { if x.imm then x.c as nat else x.a as nat }

  lemma LatchIs(op: nat, x: Operands, m: Machine, env: Env)
    requires m.Valid() && (op == 59 || op == 60)
    ensures Exec(op, Coded(op, x), m, env) == Latch(op, Coded(op, x), m)
  {
    hide Coded, Latch;
  }

  lemma LatchFields(op: nat, w: bv32, a: nat, b: nat, c: nat, imm: bool, m: Machine)
    requires m.Valid() && (op == 59 || op == 60)
    requires RegA(w) == a && RegB(w) == b && RegC(w) == c && HasImm(w) == imm && a < REG_COUNT && b < REG_COUNT && c < REG_COUNT
    ensures var id, on, off := if imm then c else a, m.reg[b] != 0, m.reg[c] != 0;
            Latch(op, w, m) ==
            if id >= MAX_TIMERS then m.(reg := m.reg[a := 0])
            else if op == 59 then
              var q := !off && (on || m.banks.rs[id]);
              m.(banks := m.banks.(rs := m.banks.rs[id := q]), reg := m.reg[a := Flag(q)])
            else
              var q := on || (!off && m.banks.sr[id]);
              m.(banks := m.banks.(sr := m.banks.sr[id := q]), reg := m.reg[a := Flag(q)])
  {
    hide RegA, RegB, RegC, HasImm, Flag;
  }

  /** RS_LATCH: reset wins. */
  lemma ResetWins(x: Operands, m: Machine, env: Env)
    requires m.Valid() && LatchId(x) < MAX_TIMERS
    ensures OpFrom("RS_LATCH", 0) >= 0
    ensures var id, on, off := LatchId(x), m.reg[Index(x.b)] != 0, m.reg[Index(x.c)] != 0;
            var q := if off then false else if on then true else m.banks.rs[id];
            Run("RS_LATCH", x, m, env) == m.(banks := m.banks.(rs := m.banks.rs[id := q]), reg := m.reg[Index(x.a) := Num.Word(Truth(q))])
  {
    hide PrintName, Exec, Run, Latch, Coded, Num.Word, Truth, Flag;
    SignalNames();
    Runs(59, "RS_LATCH", x, m, env);
    LatchIs(59, x, m, env);
    CodedFields(59, x);
    LatchFields(59, Coded(59, x), Index(x.a), Index(x.b), Index(x.c), x.imm, m);
    FlagWord(true);
    FlagWord(false);
  }

  /** SR_LATCH: set wins. */
  lemma SetWins(x: Operands, m: Machine, env: Env)
    requires m.Valid() && LatchId(x) < MAX_TIMERS
    ensures OpFrom("SR_LATCH", 0) >= 0
    ensures var id, on, off := LatchId(x), m.reg[Index(x.b)] != 0, m.reg[Index(x.c)] != 0;
            var q := if on then true else if off then false else m.banks.sr[id];
            Run("SR_LATCH", x, m, env) == m.(banks := m.banks.(sr := m.banks.sr[id := q]), reg := m.reg[Index(x.a) := Num.Word(Truth(q))])
  {
    hide PrintName, Exec, Run, Latch, Coded, Num.Word, Truth, Flag;
    SignalNames();
    Runs(60, "SR_LATCH", x, m, env);
    LatchIs(60, x, m, env);
    CodedFields(60, x);
    LatchFields(60, Coded(60, x), Index(x.a), Index(x.b), Index(x.c), x.imm, m);
    FlagWord(true);
    FlagWord(false);
  }

  /** An edge detector or latch with an id from 16 on gives 0. */
  lemma NoSuchBit(op: nat, x: Operands, m: Machine, env: Env)
    requires m.Valid()
    requires (56 <= op <= 58 && DetectorId(x, m) >= MAX_TIMERS) || (59 <= op <= 60 && LatchId(x) >= MAX_TIMERS)
    ensures Puts(PrintName(op), x, m, env, 0)
  {
    hide PrintName, Exec, OpFrom, Latch, Coded, Flag, EdgeSeen, EdgeStored;
    Runs(op, PrintName(op), x, m, env);
    if op <= 58 {
      EdgeRun(op, PrintName(op), x, m, env);
    } else {
      LatchIs(op, x, m, env);
      CodedFields(op, x);
      LatchFields(op, Coded(op, x), Index(x.a), Index(x.b), Index(x.c), x.imm, m);
    }
  }
}
