/** The VM struct with its registers, memory, timers and instruction cache, and the instruction handlers
    that update it in place. Each handler is proved against `Machine.Exec` on the value of the struct. */
module Handlers {
  import opened Words
  import opened Encoding
  import opened OpTable
  import opened Timers
  import opened VmStrings
  import opened StringEdits
  import opened Machine
  import HashBins
  import HashTable
  import Num = WordNumbers
  import opened Crc32Laws
  import opened Runtime

  /** The values of one timer array. */
  ghost function RowView(row: seq<IecTimer>): (r: seq<TimerState>)
    reads row
    ensures |r| == |row| && forall j :: 0 <= j < |row| ==> r[j] == row[j].State()
  {
    seq(|row|, j requires 0 <= j < |row| reads row => row[j].State())
  }

  ghost function BankView(bank: TimerBank): (r: Rows)
    requires bank.Valid()
    reads bank.Repr()
    ensures r.Valid()
    ensures forall k, j :: 0 <= j < MAX_TIMERS ==> r.Row(k)[j] == bank.Row(k)[j].State()
  {
    bank.RowsInRepr();
    Rows(RowView(bank.ton), RowView(bank.tof), RowView(bank.tp), RowView(bank.tonr), RowView(bank.tofr))
  }

  lemma SameRows(a: Rows, b: Rows)
    requires a.Valid() && b.Valid()
    requires forall k, j :: 0 <= j < MAX_TIMERS ==> a.Row(k)[j] == b.Row(k)[j]
    ensures a == b
  {
    assert a.Row(TON) == b.Row(TON) && a.Row(TOF) == b.Row(TOF) && a.Row(TP) == b.Row(TP);
    assert a.Row(TONR) == b.Row(TONR) && a.Row(TOFR) == b.Row(TOFR);
  }

  lemma BankIs(bank: TimerBank, r: Rows)
    requires bank.Valid() && r.Valid()
    requires forall k, j :: 0 <= j < MAX_TIMERS ==> bank.Row(k)[j].State() == r.Row(k)[j]
    ensures BankView(bank) == r
  {
    hide TimerBank.Valid, IecTimer.State;
    SameRows(BankView(bank), r);
  }

  /** `timers_init`. */
  method IdleBank() returns (bank: TimerBank)
    ensures bank.Valid() && fresh(bank.Repr()) && BankView(bank) == IDLE_ROWS
  {
    hide TimerBank.Valid;
    bank := new TimerBank();
    BankIs(bank, IDLE_ROWS);
  }

  /** `uint32_hash`. */
  function AddressHash(a: Uint32): Uint32 {
    KeyHash(a as bv32) as nat
  }

  class Vm {
    const reg: array<bv32>
    const mem: array<bv8>
    const timers: TimerBank
    const cache: HashTable.Table<Uint32, Decoded>
    var pc: Uint32
    var running: bool
    var stop: bool
    var exitCode: int
    var timeMs: nat
    var nsAccum: nat
    var executed: nat
    var banks: Banks

    ghost predicate Shaped()
      reads this`banks
    {
      reg.Length == REG_COUNT && mem.Length <= VM_MEM_BYTES && timers.Valid() && banks.Valid()
    }

    /** The struct as a value, the cache apart. */
    ghost function View(): (m: Machine)
      requires Shaped()
      reads this, reg, mem, timers.Repr()
      ensures m.Valid()
    {
      Machine(pc, reg[..], mem[..], running, stop, exitCode, timeMs, nsAccum, executed, BankView(timers), banks)
    }

    /** `vm_create` and `vm_tables_init`, with the memory size as a parameter. */
    constructor (bytes: nat)
      requires bytes <= VM_MEM_BYTES
      ensures Shaped() && fresh(reg) && fresh(mem) && mem.Length == bytes && fresh(timers.Repr())
      ensures cache.bins as object != mem && cache.bins as object != reg
      ensures fresh(cache) && fresh(cache.bins) && cache.Valid() && cache.Map() == map[] && cache.used == 0
      ensures View() == Created(bytes)
    {
      hide HashTable.Table.Valid, HashTable.Table.Map, TimerBank.Valid, View, Created, BankView;
      reg := new bv32[REG_COUNT](_ => 0);
      mem := new bv8[bytes](_ => 0);
      cache := new HashTable.Table(AddressHash);
      pc, running, stop, exitCode, timeMs, nsAccum, executed := 0, true, false, 0, 0, 0, 0;
      banks := NO_BANKS;
      var bank := IdleBank();
      timers := bank;
      new;
      ViewCreated(bytes);
    }

    lemma ViewCreated(bytes: nat)
      requires Shaped() && mem.Length == bytes && BankView(timers) == IDLE_ROWS && banks == NO_BANKS
      requires pc == 0 && running && !stop && exitCode == timeMs == nsAccum == executed == 0
      requires (forall i :: 0 <= i < REG_COUNT ==> reg[i] == 0) && forall i :: 0 <= i < bytes ==> mem[i] == 0
      ensures View() == Created(bytes)
    {
      hide TimerBank.Valid, BankView;
      assert reg[..] == Created(bytes).reg && mem[..] == Created(bytes).mem;
    }

    // ----------------------------------------------------------------
    // Access to the parts
    // ----------------------------------------------------------------

    lemma Parts()
      requires Shaped()
      ensures reg.Length == REG_COUNT && mem.Length <= VM_MEM_BYTES && timers.Valid() && banks.Valid()
      ensures View().reg == reg[..] && View().mem == mem[..] && View().banks == banks && View().pc == pc
      ensures View().timeMs == timeMs && View().executed == executed
    {
      hide TimerBank.Valid;
    }

    /** `SetA_val`. */
    method SetRegister(w: bv32, v: bv32)
      requires Shaped()
      modifies reg
      ensures View() == SetA(old(View()), w, v)
    {
      hide TimerBank.Valid;
      reg[RegA(w)] := v;
    }

    /** Counters, edge detectors and latches change together with register A. */
    method SetBanksAnd(b: Banks, w: bv32, v: bv32)
      requires Shaped() && b.Valid()
      modifies this`banks, reg
      ensures Shaped() && View() == SetBanks(old(View()), b, w, v)
    {
      hide TimerBank.Valid;
      banks := b;
      reg[RegA(w)] := v;
    }

    /** `vm_mr32`. */
    method ReadWord(a: nat) returns (w: bv32)
      requires a + 4 <= mem.Length
      ensures w == WordAt(mem[..], a)
    {
      hide WordOf;
      w := WordOf(mem[a], mem[a + 1], mem[a + 2], mem[a + 3]);
    }

    lemma ByteOrder(w: bv32)
      ensures LittleEndian(w)[0] == (w & 0xFF) as bv8 && LittleEndian(w)[1] == ((w >> 8) & 0xFF) as bv8
      ensures LittleEndian(w)[2] == ((w >> 16) & 0xFF) as bv8 && LittleEndian(w)[3] == ((w >> 24) & 0xFF) as bv8
    {
    }

    /** `vm_mw32`. */
    method WriteWord(a: nat, w: bv32)
      requires a + 4 <= mem.Length
      modifies mem
      ensures mem[..] == PutWord(old(mem[..]), a, w)
    {
      hide LittleEndian;
      ByteOrder(w);
      mem[a] := (w & 0xFF) as bv8;
      mem[a + 1] := ((w >> 8) & 0xFF) as bv8;
      mem[a + 2] := ((w >> 16) & 0xFF) as bv8;
      mem[a + 3] := ((w >> 24) & 0xFF) as bv8;
    }

    // ----------------------------------------------------------------
    // Arithmetic, comparison and strings
    // ----------------------------------------------------------------

    /** ADD, SUB, MUL and their time variants. */
    static method Sum(op: nat, b: bv32, c: bv32) returns (v: bv32)
      requires op <= 2 || op == 31 || op == 32
      ensures v == Alu(op, b, c)
    {
      match op
      case 0 => return b + c;
      case 1 => return b - c;
      case 2 => return b * c;
      case 31 => return b + c;
      case 32 => return b - c;
    }

    /** DIV, MOD and ABS. */
    static method Guarded(op: nat, b: bv32, c: bv32) returns (v: bv32)
      requires op == 3 || op == 4 || op == 6
      ensures v == Alu(op, b, c)
    {
      if op == 6 {
        return if b & 0x8000_0000 != 0 then 0 - b else b;
      }
      hide Num.Number, Num.Word, Num.Ratio, Num.Rest, Magnitude;
      if c == 0 {
        return 0;
      }
      Num.DivisionFits(b, c);
      return Num.Word(if op == 3 then Num.Ratio(Num.Number(b), Num.Number(c)) else Num.Rest(Num.Number(b), Num.Number(c)));
    }

    /** AND and OR. */
    static method Joined(op: nat, b: bv32, c: bv32) returns (v: bv32)
      requires op == 17 || op == 18
      ensures v == Alu(op, b, c)
    {
      match op
      case 17 => return b & c;
      case 18 => return b | c;
    }

    /** XOR and NOT. */
    static method Flipped(op: nat, b: bv32, c: bv32) returns (v: bv32)
      requires op == 19 || op == 20
      ensures v == Alu(op, b, c)
    {
      match op
      case 19 => return b ^ c;
      case 20 => return !b;
    }

    /** The six comparisons. */
    static method Compared(op: nat, b: bv32, c: bv32) returns (v: bv32)
      requires 21 <= op <= 26
      ensures v == Alu(op, b, c)
    {
      match op
      case 21 => return if b == c then 1 else 0;
      case 22 => return if b != c then 1 else 0;
      case 23 => return if b > c then 1 else 0;
      case 24 => return if b >= c then 1 else 0;
      case 25 => return if b < c then 1 else 0;
      case 26 => return if b <= c then 1 else 0;
    }

    /** The value of an arithmetic, logic or comparison handler. */
    static method AluValue(op: nat, b: bv32, c: bv32) returns (v: bv32)
      requires IsAlu(op)
      ensures v == Alu(op, b, c)
    {
      hide Alu;
      if op <= 2 || op >= 31 {
        v := Sum(op, b, c);
      } else if op <= 6 {
        v := Guarded(op, b, c);
      } else if op <= 18 {
        v := Joined(op, b, c);
      } else if op <= 20 {
        v := Flipped(op, b, c);
      } else {
        v := Compared(op, b, c);
      }
    }

    /** Arithmetic, logic and comparison. */
    method OpAlu(op: nat, w: bv32)
      requires Shaped() && IsAlu(op)
      modifies reg
      ensures View() == SetA(old(View()), w, Alu(op, old(View()).reg[RegB(w)], CValue(w, old(View()).reg)))
    {
      hide SetA, Alu, CValue, RegA, RegB, TimerBank.Valid;
      var v := AluValue(op, reg[RegB(w)], CValue(w, reg[..]));
      SetRegister(w, v);
    }

    /** Floating point, date and time: the value comes from outside. */
    method OpExternal(op: nat, w: bv32, env: Env)
      requires Shaped()
      modifies reg
      ensures View() == SetA(old(View()), w, env(op, old(View()).reg[RegB(w)], CValue(w, old(View()).reg), old(View()).executed))
    {
      hide Shaped, View, SetA, CValue, RegA, RegB;
      Parts();
      var c := CValue(w, reg[..]);
      SetRegister(w, env(op, reg[RegB(w)], c, executed));
    }

    method EditMemory(op: nat, a: nat, b: nat, c: nat, n: nat)
      requires IsEdit(op)
      modifies mem
      ensures mem[..] == EditBytes(op, old(mem[..]), a, b, c, n)
    {
      hide Concat, Left, Right, Mid, Insert, Delete, Replace;
      match op
      case 40 => OpConcat(mem, b, c);
      case 41 => OpLeft(mem, b, n);
      case 42 => OpRight(mem, b, n);
      case 43 => OpMid(mem, b, n);
      case 44 => OpInsert(mem, a, b, n);
      case 45 => OpDelete(mem, a, b, n);
      case 46 => OpReplace(mem, a, b, n);
    }

    /** The string edits, in memory. */
    method OpEdit(op: nat, w: bv32)
      requires Shaped() && IsEdit(op)
      modifies mem
      ensures View() == old(View()).(mem := Edit(op, w, old(View())))
    {
      hide CValue, RegA, RegB, RegC, EditBytes, TimerBank.Valid;
      var n := CValue(w, reg[..]);
      EditMemory(op, reg[RegA(w)] as nat, reg[RegB(w)] as nat, reg[RegC(w)] as nat, n as nat);
    }

    method LengthAt(a: nat) returns (len: bv32)
      requires Shaped()
      ensures len == Length(mem[..], a)
    {
      hide StrLen, TimerBank.Valid;
      if a >= mem.Length {
        return 0;
      }
      var n := StrLenAt(mem, a);
      len := n as bv32;
    }

    /** `op_len`. */
    method OpLen(w: bv32)
      requires Shaped()
      modifies reg
      ensures View() == SetA(old(View()), w, Length(old(View()).mem, old(View()).reg[RegB(w)] as nat))
    {
      hide SetA, RegA, RegB, Length, TimerBank.Valid;
      var len := LengthAt(reg[RegB(w)] as nat);
      SetRegister(w, len);
    }

    /** The two tests of `op_limit`. */
    static method Clamp(value: bv32, low: bv32, high: bv32) returns (x: bv32)
      ensures x == Limit(value, low, high)
    {
      hide Num.Below;
      x := value;
      if Num.Below(x, low) {
        x := low;
      }
      if Num.Below(high, x) {
        x := high;
      }
    }

    /** `op_limit`. */
    method OpLimit(w: bv32)
      requires Shaped()
      modifies reg
      ensures View() == SetA(old(View()), w, Limit(old(View()).reg[RegA(w)], old(View()).reg[RegB(w)], CValue(w, old(View()).reg)))
    {
      hide SetA, CValue, RegA, RegB, Limit, TimerBank.Valid;
      var x := Clamp(reg[RegA(w)], reg[RegB(w)], CValue(w, reg[..]));
      SetRegister(w, x);
    }

    // ----------------------------------------------------------------
    // Timers and counters
    // ----------------------------------------------------------------

    /** `ton_set` and its siblings, on an id in range. */
    method SetTimer(k: Kind, id: nat, input: bool, preset: nat)
      requires Shaped() && id < MAX_TIMERS
      modifies timers.Repr()
      ensures BankView(timers) == old(BankView(timers)).With(k, id, Set(k, old(BankView(timers)).Row(k)[id], input, preset, timeMs))
    {
      hide Set, TimerBank.Valid, Rows.With;
      ghost var before := BankView(timers);
      ghost var t := Set(k, before.Row(k)[id], input, preset, timeMs);
      timers.SetTimer(k, id, input, preset, timeMs);
      ghost var after := before.With(k, id, t);
      forall l: Kind, j | 0 <= j < MAX_TIMERS
        ensures timers.Row(l)[j].State() == after.Row(l)[j]
      {
        assert before.Row(l)[j] == old(timers.Row(l)[j].State());
      }
      BankIs(timers, after);
    }

    /** `ton_set` and `ton_Q`, and the same for the other kinds. */
    method DriveTimer(k: Kind, id: nat, input: bool, preset: nat) returns (q: bool)
      requires Shaped() && id < MAX_TIMERS
      modifies timers.Repr()
      ensures View() == old(View()).(rows := old(View()).rows.With(k, id, Set(k, old(View()).rows.Row(k)[id], input, preset, timeMs)))
      ensures q == Set(k, old(View()).rows.Row(k)[id], input, preset, timeMs).output
    {
      hide Set, TimerBank.Valid;
      SetTimer(k, id, input, preset);
      q := timers.Q(k, id);
    }

    /** `op_ton`, `op_tof`, `op_tp`. */
    method OpTimer(k: Kind, w: bv32)
      requires Shaped()
      modifies reg, timers.Repr()
      ensures View() == TimerOp(k, w, old(View()))
    {
      hide RegA, RegB, RegC, Set, Shaped, View, SetA;
      if !HasImm(w) {
        return;
      }
      var id := RegC(w);
      if id >= MAX_TIMERS {
        return;
      }
      Parts();
      ghost var t := Set(k, View().rows.Row(k)[id], reg[RegB(w)] != 0, reg[id] as nat, timeMs);
      assert TimerOp(k, w, View()) == SetA(View().(rows := View().rows.With(k, id, t)), w, Flag(t.output));
      hide TimerOp, Flag;
      var q := DriveTimer(k, id, reg[RegB(w)] != 0, reg[id] as nat);
      SetRegister(w, Flag(q));
    }

    /** `op_ctu`. */
    method OpCountUp(w: bv32)
      requires Shaped()
      modifies this`banks, reg
      ensures Shaped() && View() == CountUp(w, old(View()))
    {
      hide Shaped, View, SetBanks, CValue, RegA, RegB, StepUp, AtPreset, Banks.WithUp;
      Parts();
      var id := reg[RegA(w)] as nat;
      if id >= MAX_TIMERS {
        return;
      }
      var input := reg[RegB(w)] != 0;
      var preset := CValue(w, reg[..]);
      var v := StepUp(banks.ctu[id], input && !banks.ctuPrev[id]);
      assert CountUp(w, View()) == SetBanks(View(), banks.WithUp(id, v, input), w, AtPreset(v, preset));
      hide CountUp;
      SetBanksAnd(banks.WithUp(id, v, input), w, AtPreset(v, preset));
    }

    /** `op_ctd`. */
    method OpCountDown(w: bv32)
      requires Shaped()
      modifies this`banks, reg
      ensures Shaped() && View() == CountDown(w, old(View()))
    {
      hide Shaped, View, SetBanks, CValue, RegA, RegB, StepDown, UnderPreset, Banks.WithDown;
      Parts();
      var id := reg[RegA(w)] as nat;
      if id >= MAX_TIMERS {
        return;
      }
      var input := reg[RegB(w)] != 0;
      var preset := CValue(w, reg[..]);
      var v := StepDown(banks.ctd[id], input && !banks.ctdPrev[id]);
      assert CountDown(w, View()) == SetBanks(View(), banks.WithDown(id, v, input), w, UnderPreset(v, preset));
      hide CountDown;
      SetBanksAnd(banks.WithDown(id, v, input), w, UnderPreset(v, preset));
    }

    /** `op_ctud`. */
    method OpCountUpDown(w: bv32)
      requires Shaped()
      modifies this`banks, reg
      ensures Shaped() && View() == CountUpDown(w, old(View()))
    {
      hide Shaped, View, SetBanks, RegA, RegB, RegC, StepUp, StepDown, ToWord, Banks.WithUpDown;
      Parts();
      var id := reg[RegA(w)] as nat;
      if id >= MAX_TIMERS {
        return;
      }
      var up, down := reg[RegB(w)] != 0, reg[RegC(w)] != 0;
      var v := StepUp(banks.ctud[id], up && !banks.ctudUp[id]);
      v := StepDown(v, down && !banks.ctudDown[id]);
      assert CountUpDown(w, View()) == SetBanks(View(), banks.WithUpDown(id, v, up, down), w, ToWord(v));
      hide CountUpDown;
      SetBanksAnd(banks.WithUpDown(id, v, up, down), w, ToWord(v));
    }

    // ----------------------------------------------------------------
    // Edges, latches and memory words
    // ----------------------------------------------------------------

    /** The test and the stored input of each edge detector. */
    static method DetectEdge(op: nat, b: Banks, id: nat, input: bool) returns (q: bool, r: Banks)
      requires b.Valid() && id < MAX_TIMERS
      ensures r.Valid() && r == EdgeStored(op, b, id, input) && q == EdgeSeen(op, b, id, input)
    {
      match op {
        case 56 =>
          q, r := input && !b.rising[id], b.(rising := b.rising[id := input]);
        case 57 =>
          q, r := !input && b.falling[id], b.(falling := b.falling[id := input]);
        case _ =>
          q, r := input != b.both[id], b.(both := b.both[id := input]);
      }
    }

    method ReportEdge(op: nat, id: nat, input: bool, w: bv32)
      requires Shaped() && id < MAX_TIMERS
      modifies this`banks, reg
      ensures Shaped()
      ensures View() == SetBanks(old(View()), EdgeStored(op, old(banks), id, input), w, Flag(EdgeSeen(op, old(banks), id, input)))
    {
      hide TimerBank.Valid, SetBanks, EdgeStored, EdgeSeen, Flag;
      var q, changed := DetectEdge(op, banks, id, input);
      SetBanksAnd(changed, w, Flag(q));
    }

    /** `op_rising_edge`, `op_falling_edge`, `op_edge_both`. */
    method OpEdge(op: nat, w: bv32)
      requires Shaped()
      modifies this`banks, reg
      ensures Shaped() && View() == Edge(op, w, old(View()))
    {
      hide Shaped, View, SetA, SetBanks, Flag, RegA, RegB, RegC, EdgeStored, EdgeSeen;
      Parts();
      var id := if HasImm(w) then RegC(w) else reg[RegA(w)] as nat;
      if id >= MAX_TIMERS {
        SetRegister(w, 0);
        return;
      }
      ReportEdge(op, id, reg[RegB(w)] != 0, w);
    }

    /** `op_rs_latch` and `op_sr_latch`. */
    method OpLatch(op: nat, w: bv32)
      requires Shaped()
      modifies this`banks, reg
      ensures Shaped() && View() == Latch(op, w, old(View()))
    {
      hide Shaped, View, SetA, RegA, RegB, RegC;
      Parts();
      var id := if HasImm(w) then RegC(w) else RegA(w);
      if id >= MAX_TIMERS {
        SetRegister(w, 0);
        return;
      }
      var s, r := reg[RegB(w)] != 0, reg[RegC(w)] != 0;
      var latches := if op == 59 then banks.rs else banks.sr;
      var q := latches[id];
      if op == 59 {
        if r {
          q := false;
        } else if s {
          q := true;
        }
        SetBanksAnd(banks.(rs := banks.rs[id := q]), w, Flag(q));
      } else {
        if s {
          q := true;
        } else if r {
          q := false;
        }
        SetBanksAnd(banks.(sr := banks.sr[id := q]), w, Flag(q));
      }
    }

    /** The word at an address, or 0 where it does not fit: `op_sel`, `op_mux`. */
    method WordWithin(a: nat) returns (v: bv32)
      ensures v == WordOrZero(mem[..], a)
    {
      hide WordAt;
      if a + 4 > mem.Length {
        return 0;
      }
      v := ReadWord(a);
    }

    /** `op_sel`. */
    method OpSel(w: bv32)
      requires Shaped()
      modifies reg
      ensures View() == SetA(old(View()), w, Selected(54, w, old(View())))
    {
      hide SetA, RegA, RegB, RegC, WordOrZero, CValue, TimerBank.Valid, Length, Limit;
      var base := reg[RegC(w)] as nat;
      var v := WordWithin(if reg[RegB(w)] != 0 then base else base + 4);
      SetRegister(w, v);
    }

    /** `op_mux`. */
    method OpMux(w: bv32)
      requires Shaped()
      modifies reg
      ensures View() == SetA(old(View()), w, Selected(55, w, old(View())))
    {
      hide SetA, RegA, RegB, RegC, WordOrZero, CValue, TimerBank.Valid, Length, Limit;
      var v := WordWithin(reg[RegB(w)] as nat + (CValue(w, reg[..]) as nat) * 4);
      SetRegister(w, v);
    }

    /** `op_demux`. */
    method OpDemux(w: bv32)
      requires Shaped()
      modifies mem
      ensures View() == old(View()).(mem := Demux(w, old(View())))
    {
      hide RegA, RegB, RegC, CValue, TimerBank.Valid, PutWord;
      var addr := reg[RegB(w)] as nat + (CValue(w, reg[..]) as nat) * 4;
      if addr + 4 > mem.Length {
        return;
      }
      WriteWord(addr, reg[RegA(w)]);
    }

    /** `op_jmp`, `op_jmp_if`, `op_jmp_if_not`. */
    method OpJump(op: nat, w: bv32)
      requires Shaped() && 62 <= op <= 64
      modifies this`pc
      ensures View() == old(View()).(pc := Jump(op, w, old(View())))
    {
      hide Shaped, View, RegB, RegC, SignExtend;
      Parts();
      var next := pc;
      if op == 62 || (op == 63 && reg[RegC(w)] != 0) || (op == 64 && reg[RegC(w)] == 0) {
        if HasImm(w) {
          next := SignExtend(FieldC(w) as bv32) as nat;
        } else {
          next := reg[RegB(w)] as nat;
        }
      }
      assert next == Jump(op, w, View());
      hide Jump;
      SetPc(next);
    }

    method SetPc(next: Uint32)
      requires Shaped()
      modifies this`pc
      ensures View() == old(View()).(pc := next)
    {
      hide TimerBank.Valid;
      pc := next;
    }

    /** `op_exit` and `op_halt`. */
    method OpStop(op: nat, w: bv32)
      requires Shaped() && (op == EXIT || op == HALT)
      modifies this`running, this`stop, this`exitCode
      ensures View() == old(View()).(exitCode := if op == HALT then old(exitCode) else if HasImm(w) then RegC(w) else RegA(w),
                                     running := false, stop := true)
    {
      hide RegA, RegC, TimerBank.Valid;
      if op == EXIT {
        exitCode := if HasImm(w) then RegC(w) else RegA(w);
      }
      running := false;
      stop := true;
    }
  }
}
