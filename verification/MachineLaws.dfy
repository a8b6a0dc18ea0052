/** What instructions mean to one another: inverses, counters over whole input sequences, edges and
    latches that agree, stores that are read back, jumps that leave. */
module MachineLaws {
  import opened Words
  import opened Encoding
  import opened OpTable
  import opened Timers
  import opened VmStrings
  import opened Machine
  import opened Loader
  import opened Runtime
  import opened RuntimeLaws
  import StaleCache

  // ------------------------------------------------------------------
  // Counters, edges, latches
  // ------------------------------------------------------------------

  /** Rising edges of a sequence of inputs after the input `prev`. */
  function Rises(prev: bool, inputs: seq<bool>): nat
    decreases |inputs|
  {
    if inputs == [] then 0 else (if inputs[0] && !prev then 1 else 0) + Rises(inputs[0], inputs[1..])
  }

  predicate Drives(m: Machine, w: bv32, id: nat, input: bool) {
    m.Valid() && id < MAX_TIMERS && m.reg[RegA(w)] as nat == id && (m.reg[RegB(w)] != 0) == input
  }

  /** The counters after a sequence of CTU or CTD instructions on one id: before each, the program puts
      the id into register A and the input into register B. */
  function Counted(up: bool, b: Banks, id: nat, inputs: seq<bool>): (r: Banks)
    requires b.Valid() && id < MAX_TIMERS
    ensures r.Valid()
    decreases |inputs|
  {
    if inputs == [] then b
    else Counted(up, CountedOnce(up, b, id, inputs[0]), id, inputs[1..])
  }

  function CountedOnce(up: bool, b: Banks, id: nat, input: bool): (r: Banks)
    requires b.Valid() && id < MAX_TIMERS
    ensures r.Valid()
  {
    if up then b.WithUp(id, StepUp(b.ctu[id], input && !b.ctuPrev[id]), input)
    else b.WithDown(id, StepDown(b.ctd[id], input && !b.ctdPrev[id]), input)
  }

  /** One CTU or CTD instruction. */
  lemma CountsOnce(w: bv32, m: Machine, id: nat, input: bool)
    requires Drives(m, w, id, input)
    ensures CountUp(w, m).banks == CountedOnce(true, m.banks, id, input)
    ensures CountDown(w, m).banks == CountedOnce(false, m.banks, id, input)
  {
    hide RegA, RegB, CValue, AtPreset, UnderPreset;
  }

  /** CTU counts the rising edges of its input and stops at 2^32 - 1. */
  lemma {:induction false} CtuCountsRises(b: Banks, id: nat, inputs: seq<bool>)
    requires b.Valid() && id < MAX_TIMERS
    ensures var total := b.ctu[id] + Rises(b.ctuPrev[id], inputs);
            Counted(true, b, id, inputs).ctu[id] == if total < U32 then total else U32 - 1
    decreases |inputs|
  {
    if inputs != [] {
      CtuCountsRises(CountedOnce(true, b, id, inputs[0]), id, inputs[1..]);
    }
  }

  /** CTD counts them down and stops at 0. */
  lemma {:induction false} CtdCountsRises(b: Banks, id: nat, inputs: seq<bool>)
    requires b.Valid() && id < MAX_TIMERS
    ensures var n := Rises(b.ctdPrev[id], inputs);
            Counted(false, b, id, inputs).ctd[id] == if n < b.ctd[id] then b.ctd[id] - n else 0
    decreases |inputs|
  {
    if inputs != [] {
      CtdCountsRises(CountedOnce(false, b, id, inputs[0]), id, inputs[1..]);
    }
  }

  /** Nothing is left over at power-on. */
  lemma ZeroAtStart(bytes: nat, r: nat, a: nat, k: Kind, id: nat)
    requires bytes <= VM_MEM_BYTES && r < REG_COUNT && a < bytes && id < MAX_TIMERS
    ensures var m := Created(bytes);
            && |m.mem| == bytes && m.reg[r] == 0 && m.mem[a] == 0 && m.rows.Row(k)[id] == IDLE
            && m.banks.ctu[id] == m.banks.ctd[id] == m.banks.ctud[id] == 0
            && !m.banks.ctuPrev[id] && !m.banks.ctdPrev[id] && !m.banks.ctudUp[id] && !m.banks.ctudDown[id]
            && !m.banks.rising[id] && !m.banks.falling[id] && !m.banks.both[id] && !m.banks.rs[id] && !m.banks.sr[id]
            && !m.stop && m.timeMs == m.nsAccum == m.executed == 0
  {
  }

  /** From power-on: CTU shows the rising edges so far, and CTD stays at 0. */
  lemma CountsFromZero(id: nat, inputs: seq<bool>)
    requires id < MAX_TIMERS
    ensures Counted(true, NO_BANKS, id, inputs).ctu[id] == if Rises(false, inputs) < U32 then Rises(false, inputs) else U32 - 1
    ensures Counted(false, NO_BANKS, id, inputs).ctd[id] == 0
  {
    hide Counted, Rises;
    CtuCountsRises(NO_BANKS, id, inputs);
    CtdCountsRises(NO_BANKS, id, inputs);
  }

  /** The three edge detectors of one id have seen the same input. */
  predicate InStep(b: Banks, id: nat)
    requires b.Valid() && id < MAX_TIMERS
  {
    b.rising[id] == b.falling[id] == b.both[id]
  }

  function Detected(op: nat, w: bv32, m: Machine): bv32
    requires m.Valid()
  {
    Edge(op, w, m).reg[RegA(w)]
  }

  /** On detectors in step, EDGE_BOTH reports exactly the edges one of the other two reports, and never
      do both of those. */
  lemma EdgesAgree(w: bv32, m: Machine)
    requires m.Valid() && EdgeId(w, m) < MAX_TIMERS && InStep(m.banks, EdgeId(w, m))
    ensures Detected(58, w, m) == Detected(56, w, m) + Detected(57, w, m)
    ensures Detected(56, w, m) == 0 || Detected(57, w, m) == 0
  {
    hide RegA, RegB, EdgeId;
  }

  /** With the same stored bit and inputs the two latches differ exactly when set and reset are both on. */
  lemma LatchesDiffer(w: bv32, m: Machine)
    requires m.Valid()
    requires var id := if HasImm(w) then RegC(w) else RegA(w); id < MAX_TIMERS && m.banks.rs[id] == m.banks.sr[id]
    ensures Latch(59, w, m).reg[RegA(w)] != Latch(60, w, m).reg[RegA(w)] <==> m.reg[RegB(w)] != 0 && m.reg[RegC(w)] != 0
  {
    hide RegA, RegB, RegC, HasImm;
  }

  // ------------------------------------------------------------------
  // Demultiplexer and multiplexer
  // ------------------------------------------------------------------

  /** The byte of memory at `x` after a word is stored at `a`. */
  function ByteAfter(m: Bytes, a: nat, w: bv32, x: nat): bv8
    requires a + 4 <= |m| && x < |m|
  {
    if a <= x < a + 4 then LittleEndian(w)[x - a] else m[x]
  }

  lemma ReadStored(m: Bytes, a: nat, w: bv32, b: nat)
    requires a + 4 <= |m| && b + 4 <= |m|
    ensures LittleEndian(WordAt(PutWord(m, a, w), b)) ==
            [ByteAfter(m, a, w, b), ByteAfter(m, a, w, b + 1), ByteAfter(m, a, w, b + 2), ByteAfter(m, a, w, b + 3)]
  {
    hide LittleEndian, WordOf;
    var r := PutWord(m, a, w);
    BytesOfWord(r[b], r[b + 1], r[b + 2], r[b + 3]);
  }

  lemma IndexedSame(w: bv32, m: Machine, mem: Bytes)
    requires m.Valid() && |mem| == |m.mem|
    ensures Indexed(w, m.(mem := mem)) == Indexed(w, m)
  {
    hide RegB, CValue;
  }

  lemma MuxReads(w: bv32, m: Machine)
    requires m.Valid()
    ensures Selected(55, w, m) == WordOrZero(m.mem, Indexed(w, m))
  {
    hide WordOrZero, Indexed, Length, Limit, RegA, RegB, RegC, CValue;
  }

  lemma DemuxWrites(w: bv32, m: Machine)
    requires m.Valid()
    ensures Indexed(w, m) + 4 <= |m.mem| ==> Demux(w, m) == PutWord(m.mem, Indexed(w, m), m.reg[RegA(w)])
    ensures Indexed(w, m) + 4 > |m.mem| ==> Demux(w, m) == m.mem
  {
    hide Indexed, RegA, PutWord;
  }

  /** A MUX after a DEMUX, at any two addresses: each byte it selects is one the DEMUX stored or, where
      the DEMUX stored nothing, the byte that was there. */
  lemma MuxAfterDemux(store: bv32, load: bv32, m: Machine)
    requires m.Valid()
    ensures var a, b, x := Indexed(store, m), Indexed(load, m), m.reg[RegA(store)];
            var got := Selected(55, load, m.(mem := Demux(store, m)));
            if b + 4 > |m.mem| then got == 0
            else if a + 4 > |m.mem| then got == Selected(55, load, m)
            else LittleEndian(got) == [ByteAfter(m.mem, a, x, b), ByteAfter(m.mem, a, x, b + 1),
                                       ByteAfter(m.mem, a, x, b + 2), ByteAfter(m.mem, a, x, b + 3)]
  {
    hide RegA, PutWord, WordAt, Indexed, Selected, Demux, LittleEndian, ByteAfter;
    var a, b := Indexed(store, m), Indexed(load, m);
    DemuxWrites(store, m);
    IndexedSame(load, m, Demux(store, m));
    MuxReads(load, m);
    MuxReads(load, m.(mem := Demux(store, m)));
    if a + 4 <= |m.mem| && b + 4 <= |m.mem| {
      ReadStored(m.mem, a, m.reg[RegA(store)], b);
    }
  }

  lemma SameLittleEndian(x: bv32, y: bv32)
    requires LittleEndian(x) == LittleEndian(y)
    ensures x == y
  {
    WordOfBytes(x);
    WordOfBytes(y);
    hide WordOf;
    assert LittleEndian(x)[0] == LittleEndian(y)[0] && LittleEndian(x)[1] == LittleEndian(y)[1];
    assert LittleEndian(x)[2] == LittleEndian(y)[2] && LittleEndian(x)[3] == LittleEndian(y)[3];
  }

  /** At the same address the MUX selects the register the DEMUX stored. */
  lemma MuxUndoesDemux(store: bv32, load: bv32, m: Machine)
    requires m.Valid() && Indexed(store, m) == Indexed(load, m) && Indexed(store, m) + 4 <= |m.mem|
    ensures Selected(55, load, m.(mem := Demux(store, m))) == m.reg[RegA(store)]
  {
    hide RegA, Indexed, Selected, Demux, LittleEndian;
    MuxAfterDemux(store, load, m);
    SameLittleEndian(Selected(55, load, m.(mem := Demux(store, m))), m.reg[RegA(store)]);
  }

  // ------------------------------------------------------------------
  // Jumps
  // ------------------------------------------------------------------

  lemma HighWord(c: bv32)
    requires 0x80 <= c <= 0xFF
    ensures 0 - (0x100 - c) >= 0xFFFF_FF00
  {
  }

  lemma HighTarget(x: bv32)
    requires x >= 0xFFFF_FF00
    ensures x as nat >= 0xFFFF_FF00
  {
  }

  lemma NegativeTarget(c: bv8)
    requires c >= 0x80
    ensures SignExtend(c as bv32) as nat >= 0xFFFF_FF00
  {
    hide SignExtend;
    ExtendedHigh(c);
    HighWord(c as bv32);
    HighTarget(SignExtend(c as bv32));
  }

  lemma JumpSets(op: nat, w: bv32, m: Machine, env: Env)
    requires m.Valid() && 62 <= op <= 64
    ensures Exec(op, w, m, env) == m.(pc := Jump(op, w, m))
  {
    hide Jump;
  }

  /** JMP_IF is JMP when register C is not zero and nothing when it is; JMP_IF_NOT is the other way round. */
  lemma ConditionalJumps(w: bv32, m: Machine, env: Env)
    requires m.Valid()
    ensures m.reg[RegC(w)] != 0 ==> Exec(63, w, m, env) == Exec(62, w, m, env) && Exec(64, w, m, env).pc == m.pc && Exec(64, w, m, env) == m
    ensures m.reg[RegC(w)] == 0 ==> Exec(64, w, m, env) == Exec(62, w, m, env) && Exec(63, w, m, env).pc == m.pc && Exec(63, w, m, env) == m
  {
    hide Exec, SignExtend, HasImm, RegB, RegC, FieldC;
    JumpSets(62, w, m, env);
    JumpSets(63, w, m, env);
    JumpSets(64, w, m, env);
  }

  lemma LowTarget(c: bv8)
    requires c < 0x80
    ensures SignExtend(c as bv32) as nat == c as nat
  {
    ExtendedLow(c);
    hide SignExtend;
  }

  /** JMP goes to the value of register B, or to the immediate when it is not negative. */
  lemma JumpTargets(w: bv32, m: Machine, env: Env)
    requires m.Valid()
    ensures !HasImm(w) ==> Exec(62, w, m, env).pc == m.reg[RegB(w)] as nat
    ensures HasImm(w) && FieldC(w) < 0x80 ==> Exec(62, w, m, env).pc == FieldC(w) as nat
    ensures HasImm(w) && FieldC(w) >= 0x80 ==> Exec(62, w, m, env).pc >= 0xFFFF_FF00
  {
    hide Exec, SignExtend, HasImm, RegB, RegC, FieldC;
    JumpSets(62, w, m, env);
    if FieldC(w) < 0x80 {
      LowTarget(FieldC(w));
    } else {
      NegativeTarget(FieldC(w));
    }
  }

  lemma Dispatched(op: nat, w: bv32, m: Machine, s: Setting)
    requires m.Valid() && 62 <= op <= 64 && m.pc + 4 < U32
    ensures var p := Exec(op, w, m, s.env).pc; Dispatch(op, w, m, s).pc == if p == m.pc then m.pc + 4 else p
  {
    hide Exec, Dispatch;
    StaleCache.Advance(op, w, m, s);
  }

  /** A jump to its own address is taken for no jump at all. */
  lemma JumpToItself(op: nat, w: bv32, m: Machine, s: Setting)
    requires m.Valid() && 62 <= op <= 64 && m.pc + 4 < U32 && !HasImm(w) && m.reg[RegB(w)] as nat == m.pc
    ensures Dispatch(op, w, m, s).pc == m.pc + 4
  {
    hide Exec, HasImm, RegB, RegC, Dispatch;
    ConditionalJumps(w, m, s.env);
    JumpTargets(w, m, s.env);
    Dispatched(op, w, m, s);
  }

  lemma LeavesHigh(m: Machine, mod: ModuleInfo)
    requires Fits(m, mod) && m.pc >= 0xFFFF_FF00
    ensures FetchAt(m, mod) == Leave
  {
  }

  /** Jump targets are absolute: a jump with a negative immediate leaves every module when it is taken,
      and is a step to the next word when it is not. JMP is always taken, JMP_IF when register C is not
      zero, JMP_IF_NOT when it is zero. */
  lemma NegativeJumpLeaves(op: nat, w: bv32, m: Machine, mod: ModuleInfo, s: Setting)
    requires Fits(m, mod) && InModule(m.pc, mod) && 62 <= op <= 64 && HasImm(w) && FieldC(w) >= 0x80
    ensures Fits(Dispatch(op, w, m, s), mod)
    ensures if op == 62 || (op == 63 && m.reg[RegC(w)] != 0) || (op == 64 && m.reg[RegC(w)] == 0)
            then FetchAt(Dispatch(op, w, m, s), mod) == Leave
            else Dispatch(op, w, m, s).pc == m.pc + 4
  {
    hide Exec, HasImm, FieldC, RegC, Dispatch, FetchAt;
    ConditionalJumps(w, m, s.env);
    JumpTargets(w, m, s.env);
    Dispatched(op, w, m, s);
    DispatchFits(op, w, m, mod, s);
    if Dispatch(op, w, m, s).pc >= 0xFFFF_FF00 {
      LeavesHigh(Dispatch(op, w, m, s), mod);
    }
  }
}
