/** The runtime of vm_runtime.c and the cached decoder of vm_tables.c on the VM struct: the loops that
    update registers, memory, timers, clock and the hash table behind the cache, proved to reach what
    `Runtime.CachedRun` and `Cycles.Cycles` say. */
module VmRuntime {
  import opened Words
  import opened Encoding
  import opened OpTable
  import opened Timers
  import opened VmStrings
  import opened Machine
  import opened Loader
  import opened Runtime
  import opened Cycles
  import HashBins
  import HashTable
  import opened Handlers

  // ------------------------------------------------------------------
  // Dispatch
  // ------------------------------------------------------------------

  /** The handler table by groups. */
  lemma ExecGroups(op: nat, w: bv32, m: Machine, env: Env)
    requires m.Valid() && op < OPCODES
    ensures IsAlu(op) ==> Exec(op, w, m, env) == SetA(m, w, Alu(op, m.reg[RegB(w)], CValue(w, m.reg)))
    ensures IsExternal(op) ==> Exec(op, w, m, env) == SetA(m, w, env(op, m.reg[RegB(w)], CValue(w, m.reg), m.executed))
    ensures IsEdit(op) ==> Exec(op, w, m, env) == m.(mem := Edit(op, w, m))
    ensures 62 <= op <= 64 ==> Exec(op, w, m, env) == m.(pc := Jump(op, w, m))
    ensures 56 <= op <= 58 ==> Exec(op, w, m, env) == Edge(op, w, m)
    ensures 59 <= op <= 60 ==> Exec(op, w, m, env) == Latch(op, w, m)
    ensures op == 39 ==> Exec(op, w, m, env) == SetA(m, w, Length(m.mem, m.reg[RegB(w)] as nat))
    ensures op == 53 ==> Exec(op, w, m, env) == SetA(m, w, Limit(m.reg[RegA(w)], m.reg[RegB(w)], CValue(w, m.reg)))
  {
    hide Alu, Edit, CValue, Jump, Demux, TimerOp, CountUp, CountDown, CountUpDown, Edge, Latch, RegA, RegB, RegC;
    hide SetA, Length, Limit, WordOrZero;
  }

  lemma ExecSingles(op: nat, w: bv32, m: Machine, env: Env)
    requires m.Valid() && op < OPCODES
    ensures op == 47 ==> Exec(op, w, m, env) == TimerOp(TON, w, m)
    ensures op == 48 ==> Exec(op, w, m, env) == TimerOp(TOF, w, m)
    ensures op == 49 ==> Exec(op, w, m, env) == TimerOp(TP, w, m)
    ensures op == 50 ==> Exec(op, w, m, env) == CountUp(w, m)
    ensures op == 51 ==> Exec(op, w, m, env) == CountDown(w, m)
    ensures op == 52 ==> Exec(op, w, m, env) == CountUpDown(w, m)
    ensures op == 54 || op == 55 ==> Exec(op, w, m, env) == SetA(m, w, Selected(op, w, m))
    ensures op == 61 ==> Exec(op, w, m, env) == m.(mem := Demux(w, m))
    ensures op == EXIT ==> Exec(op, w, m, env) == m.(exitCode := if HasImm(w) then RegC(w) else RegA(w), running := false, stop := true)
    ensures op == HALT ==> Exec(op, w, m, env) == m.(running := false, stop := true)
    ensures op == 67 ==> Exec(op, w, m, env) == m
  {
    hide Selected, Demux, TimerOp, CountUp, CountDown, CountUpDown, RegA, RegC, SetA;
  }

  /** The opcodes handled one by one. */
  method ExecuteSingle(vm: Vm, op: nat, w: bv32, env: Env)
    requires vm.Shaped() && op < OPCODES && !IsAlu(op) && !IsExternal(op) && !IsEdit(op) && (op < 56 || op > 60)
    modifies vm, vm.reg, vm.mem, vm.timers.Repr()
    ensures vm.Shaped() && vm.View() == Exec(op, w, old(vm.View()), env)
  {
    ExecGroups(op, w, vm.View(), env);
    ExecSingles(op, w, vm.View(), env);
    hide Exec, Selected, CValue, Jump, Demux, TimerOp, CountUp, CountDown, CountUpDown, RegA, RegB, RegC, SetA, Length, Limit;
    hide Vm.View, TimerBank.Valid;
    match op
    case 39 => vm.OpLen(w);
    case 47 => vm.OpTimer(TON, w);
    case 48 => vm.OpTimer(TOF, w);
    case 49 => vm.OpTimer(TP, w);
    case 50 => vm.OpCountUp(w);
    case 51 => vm.OpCountDown(w);
    case 52 => vm.OpCountUpDown(w);
    case 53 => vm.OpLimit(w);
    case 54 => vm.OpSel(w);
    case 55 => vm.OpMux(w);
    case 61 => vm.OpDemux(w);
    case 62 => vm.OpJump(op, w);
    case 63 => vm.OpJump(op, w);
    case 64 => vm.OpJump(op, w);
    case 65 => vm.OpStop(op, w);
    case 66 => vm.OpStop(op, w);
    case 67 =>
  }

  /** `vm->op_ex[opcode](vm, w)`. */
  method Execute(vm: Vm, op: nat, w: bv32, env: Env)
    requires vm.Shaped() && op < OPCODES
    modifies vm, vm.reg, vm.mem, vm.timers.Repr()
    ensures vm.Shaped() && vm.View() == Exec(op, w, old(vm.View()), env)
  {
    ExecGroups(op, w, vm.View(), env);
    hide Exec, Alu, Edit, CValue, Edge, Latch, RegA, RegB, SetA, Vm.View, TimerBank.Valid;
    if IsAlu(op) {
      vm.OpAlu(op, w);
    } else if IsExternal(op) {
      vm.OpExternal(op, w, env);
    } else if IsEdit(op) {
      vm.OpEdit(op, w);
    } else if 56 <= op <= 58 {
      vm.OpEdge(op, w);
    } else if 59 <= op <= 60 {
      vm.OpLatch(op, w);
    } else {
      ExecuteSingle(vm, op, w, env);
    }
  }

  // ------------------------------------------------------------------
  // The instruction cache
  // ------------------------------------------------------------------

  /** The cache is a table nothing was ever deleted from, and its keys are addresses in memory. */
  ghost predicate CacheOk(vm: Vm)
    reads vm.cache, vm.cache.bins
  {
    && vm.cache.Valid() && vm.cache.used == |vm.cache.Map()| && (forall a :: a in vm.cache.Map() ==> a < VM_MEM_BYTES)
    && vm.cache.bins as object != vm.mem && vm.cache.bins as object != vm.reg
  }

  lemma {:induction false} FewKeys(keys: set<Uint32>, n: nat)
    requires forall a :: a in keys ==> a < n
    ensures |keys| <= n
  {
    if n == 0 {
      assert keys == {};
    } else {
      FewKeys(keys - {n - 1}, n - 1);
    }
  }

  /** An insert never finds the table too large to grow. */
  lemma CacheRoom(vm: Vm)
    requires CacheOk(vm)
    ensures vm.cache.Valid() && vm.cache.used == |vm.cache.Map()|
    ensures 2 * (vm.cache.used + 1) > vm.cache.size ==> 2 * vm.cache.size <= HashBins.MAX_TABLE_SIZE
  {
    FewKeys(vm.cache.Map().Keys, VM_MEM_BYTES);
    assert |vm.cache.Map().Keys| == |vm.cache.Map()|;
    vm.cache.Bounds();
  }

  /** A decoded instruction enters the cache. */
  method Remember(vm: Vm, addr: Uint32, d: Decoded)
    requires CacheOk(vm) && addr < VM_MEM_BYTES && addr !in vm.cache.Map()
    modifies vm.cache, vm.cache.bins
    ensures CacheOk(vm) && (vm.cache.bins == old(vm.cache.bins) || fresh(vm.cache.bins))
    ensures vm.cache.Map() == old(vm.cache.Map())[addr := d]
  {
    hide HashTable.Table.Valid, HashTable.Table.Map;
    CacheRoom(vm);
    vm.cache.Insert(addr, d);
  }

  /** `decode_instruction_cached`. Nothing but the cache changes. */
  method DecodeInstruction(vm: Vm, addr: Uint32) returns (d: Decoded)
    requires CacheOk(vm) && addr + 4 <= vm.mem.Length <= VM_MEM_BYTES
    modifies vm.cache, vm.cache.bins
    ensures CacheOk(vm) && (vm.cache.bins == old(vm.cache.bins) || fresh(vm.cache.bins))
    ensures d == if addr in old(vm.cache.Map()) then old(vm.cache.Map())[addr] else Decode(WordAt(vm.mem[..], addr))
    ensures vm.cache.Map() == old(vm.cache.Map())[addr := d]
  {
    hide HashTable.Table.Valid, HashTable.Table.Map, Decode, WordAt;
    var v := vm.cache.Lookup(addr);
    if v.Copy? {
      return v.data;
    }
    var w := vm.ReadWord(addr);
    d := Decode(w);
    Remember(vm, addr, d);
  }

  // ------------------------------------------------------------------
  // One instruction, one module
  // ------------------------------------------------------------------

  /** `vm_update_time_after_instruction` without tick timing. */
  method UpdateTime(vm: Vm, rate: nat)
    requires vm.Shaped()
    modifies vm`timeMs, vm`nsAccum
    ensures vm.Shaped() && vm.View() == Tick(old(vm.View()), rate)
  {
    hide TimerBank.Valid;
    if rate != 0 {
      vm.nsAccum := vm.nsAccum + InstrNs(rate);
      var ms := vm.nsAccum / NS_PER_MS;
      if ms != 0 {
        vm.timeMs := vm.timeMs + ms;
        vm.nsAccum := vm.nsAccum - ms * NS_PER_MS;
      }
    }
  }

  /** The default step of the program counter after a handler that left it alone, and the count. */
  method CountStep(vm: Vm, oldPc: Uint32)
    requires vm.Shaped()
    modifies vm`pc, vm`executed
    ensures vm.Shaped()
    ensures var e := old(vm.View());
            vm.View() == e.(pc := if e.pc == oldPc then (oldPc + 4) % U32 else e.pc, executed := e.executed + 1)
  {
    hide TimerBank.Valid;
    if vm.pc == oldPc {
      vm.pc := (vm.pc + 4) % U32;
    }
    vm.executed := vm.executed + 1;
  }

  /** The handler call of `vm_run_instruction`, the default step of the program counter and the clock. */
  method Step(vm: Vm, op: nat, w: bv32, s: Setting)
    requires vm.Shaped() && op < OPCODES
    modifies vm, vm.reg, vm.mem, vm.timers.Repr()
    ensures vm.Shaped() && vm.View() == Dispatch(op, w, old(vm.View()), s)
  {
    hide Exec, Tick, Vm.View, Vm.Shaped, TimerBank.Valid;
    vm.Parts();
    ExecValid(op, w, vm.View(), s.env);
    var oldPc := vm.pc;
    Execute(vm, op, w, s.env);
    CountStep(vm, oldPc);
    UpdateTime(vm, s.rate);
  }

  /** The struct and its cache as a value. */
  ghost function Now(vm: Vm): (v: Snapshot)
    requires vm.Shaped()
    reads vm, vm.reg, vm.mem, vm.timers.Repr(), vm.cache, vm.cache.bins
  {
    Snapshot(vm.View(), vm.cache.Map())
  }

  /** One round of the cached loop: the machine, the cache, and whether the loop goes on. */
  ghost function Round(v: Snapshot, mod: ModuleInfo, s: Setting): (Snapshot, bool)
    requires Fits(v.m, mod)
  {
    match FetchAt(v.m, mod)
    case Leave => (v, false)
    case Illegal => (Snapshot(v.m.(running := false), v.cache[v.m.pc := Lookup(v.m, v.cache)]), false)
    case Run(w) =>
      var d := Lookup(v.m, v.cache);
      (Snapshot(Dispatch(Opcode(w) as nat, d.raw, v.m, s), v.cache[v.m.pc := d]), true)
  }

  /** The decoder at the program counter. */
  method DecodeHere(vm: Vm) returns (d: Decoded)
    requires vm.Shaped() && CacheOk(vm) && vm.pc + 4 <= vm.mem.Length
    modifies vm.cache, vm.cache.bins
    ensures CacheOk(vm) && (vm.cache.bins == old(vm.cache.bins) || fresh(vm.cache.bins))
    ensures d == Lookup(old(vm.View()), old(vm.cache.Map()))
    ensures Now(vm) == Snapshot(old(vm.View()), old(vm.cache.Map())[vm.pc := d])
  {
    hide WordAt, Decode, TimerBank.Valid, HashTable.Table.Valid, HashTable.Table.Map;
    d := DecodeInstruction(vm, vm.pc);
  }

  /** `Step` leaves the cache alone. */
  method StepOnly(vm: Vm, op: nat, w: bv32, s: Setting)
    requires vm.Shaped() && CacheOk(vm) && op < OPCODES
    modifies vm, vm.reg, vm.mem, vm.timers.Repr()
    ensures vm.Shaped() && CacheOk(vm)
    ensures Now(vm) == Snapshot(Dispatch(op, w, old(vm.View()), s), old(vm.cache.Map()))
  {
    hide Dispatch, Vm.View, TimerBank.Valid, HashTable.Table.Valid, HashTable.Table.Map;
    Step(vm, op, w, s);
  }

  /** `vm_run_instruction`: false stands for a nonzero return. */
  method RunInstruction(vm: Vm, mod: ModuleInfo, s: Setting) returns (more: bool)
    requires vm.Shaped() && CacheOk(vm) && Fits(vm.View(), mod)
    modifies vm, vm.reg, vm.mem, vm.timers.Repr(), vm.cache, vm.cache.bins
    ensures vm.Shaped() && CacheOk(vm) && (vm.cache.bins == old(vm.cache.bins) || fresh(vm.cache.bins))
    ensures (Now(vm), more) == Round(old(Now(vm)), mod, s)
  {
    hide Dispatch, Opcode, WordAt, Decode, Lookup, CacheOk, TimerBank.Valid, HashTable.Table.Valid, HashTable.Table.Map;
    if vm.pc >= mod.addr + mod.size || vm.pc < mod.addr {
      return false;
    }
    var w := WordOf(vm.mem[vm.pc], vm.mem[vm.pc + 1], vm.mem[vm.pc + 2], vm.mem[vm.pc + 3]);
    WordHere(vm);
    if w == 0 {
      return false;
    }
    more := Continue(vm, w, s);
  }

  lemma WordHere(vm: Vm)
    requires vm.Shaped() && vm.pc + 4 <= vm.mem.Length
    ensures WordAt(vm.View().mem, vm.View().pc) == WordOf(vm.mem[vm.pc], vm.mem[vm.pc + 1], vm.mem[vm.pc + 2], vm.mem[vm.pc + 3])
  {
    hide WordOf, TimerBank.Valid;
  }

  /** The part of `vm_run_instruction` after a nonzero fetch: decode, check the opcode, execute. */
  method Continue(vm: Vm, w: bv32, s: Setting) returns (more: bool)
    requires vm.Shaped() && CacheOk(vm) && vm.pc + 4 <= vm.mem.Length
    modifies vm, vm.reg, vm.mem, vm.timers.Repr(), vm.cache, vm.cache.bins
    ensures vm.Shaped() && CacheOk(vm) && (vm.cache.bins == old(vm.cache.bins) || fresh(vm.cache.bins))
    ensures var m, d := old(vm.View()), Lookup(old(vm.View()), old(vm.cache.Map()));
            && more == ((Opcode(w) as nat) < OPCODES)
            && Now(vm) == Snapshot(if more then Dispatch(Opcode(w) as nat, d.raw, m, s) else m.(running := false), old(vm.cache.Map())[m.pc := d])
  {
    hide Dispatch, Opcode, WordAt, Decode, Lookup, TimerBank.Valid, HashTable.Table.Valid, HashTable.Table.Map;
    var d := DecodeHere(vm);
    if Opcode(w) as nat >= OPCODES {
      vm.running := false;
      return false;
    }
    StepOnly(vm, Opcode(w) as nat, d.raw, s);
    return true;
  }

  /** Where the cached loop ends from a snapshot. */
  ghost function End(v: Snapshot, mod: ModuleInfo, s: Setting, n: nat): Snapshot
    requires Fits(v.m, mod)
  {
    var r := CachedRun(v.m, v.cache, mod, s, n);
    Snapshot(r.m, r.cache)
  }

  lemma RoundUnfolds(v: Snapshot, mod: ModuleInfo, s: Setting, n: nat)
    requires Fits(v.m, mod) && v.m.running && n > 0
    ensures var (next, more) := Round(v, mod, s);
            Fits(next.m, mod) && End(v, mod, s, n) == if more then End(next, mod, s, n - 1) else next
  {
    hide Dispatch, Opcode, WordAt, Decode, Lookup;
    if FetchAt(v.m, mod).Run? {
      DispatchValid(Opcode(FetchAt(v.m, mod).w) as nat, Lookup(v.m, v.cache).raw, v.m, s);
    }
  }

  lemma NothingLeft(v: Snapshot, mod: ModuleInfo, s: Setting, n: nat)
    requires Fits(v.m, mod) && (!v.m.running || n == 0)
    ensures End(v, mod, s, n) == v
  {
  }

  /** The loop of `vm_run_module`. */
  method RunLoop(vm: Vm, mod: ModuleInfo, s: Setting)
    requires vm.Shaped() && CacheOk(vm) && Fits(vm.View(), mod)
    modifies vm, vm.reg, vm.mem, vm.timers.Repr(), vm.cache, vm.cache.bins
    ensures vm.Shaped() && CacheOk(vm) && (vm.cache.bins == old(vm.cache.bins) || fresh(vm.cache.bins))
    ensures Now(vm) == End(old(Now(vm)), mod, s, MAX_INSTRUCTIONS)
  {
    hide End, Round, CacheOk, TimerBank.Valid, HashTable.Table.Valid, HashTable.Table.Map;
    ghost var target := End(Now(vm), mod, s, MAX_INSTRUCTIONS);
    var count := 0;
    while vm.running && count < MAX_INSTRUCTIONS
      invariant 0 <= count <= MAX_INSTRUCTIONS
      invariant vm.Shaped() && CacheOk(vm) && (vm.cache.bins == old(vm.cache.bins) || fresh(vm.cache.bins))
      invariant Fits(Now(vm).m, mod) && End(Now(vm), mod, s, MAX_INSTRUCTIONS - count) == target
    {
      ghost var before := Now(vm);
      RoundUnfolds(before, mod, s, MAX_INSTRUCTIONS - count);
      var more := RunInstruction(vm, mod, s);
      if !more {
        return;
      }
      count := count + 1;
    }
    NothingLeft(Now(vm), mod, s, MAX_INSTRUCTIONS - count);
  }

  /** `vm_run_module`. */
  method RunWholeModule(vm: Vm, mod: ModuleInfo, s: Setting)
    requires vm.Shaped() && CacheOk(vm) && Fits(vm.View(), mod)
    modifies vm, vm.reg, vm.mem, vm.timers.Repr(), vm.cache, vm.cache.bins
    ensures vm.Shaped() && CacheOk(vm) && (vm.cache.bins == old(vm.cache.bins) || fresh(vm.cache.bins))
    ensures Now(vm) == RunModule(old(Now(vm)), mod, s)
  {
    hide CachedRun, TimerBank.Valid, HashTable.Table.Valid, HashTable.Table.Map;
    vm.running := true;
    vm.pc := mod.addr;
    assert Now(vm) == Snapshot(Enter(old(vm.View()), mod), old(vm.cache.Map()));
    RunLoop(vm, mod, s);
  }

  // ------------------------------------------------------------------
  // Cycles
  // ------------------------------------------------------------------

  /** The loop over the modules in `run_program`. */
  method RunModules(vm: Vm, mods: seq<ModuleInfo>, s: Setting)
    requires vm.Shaped() && CacheOk(vm) && AllFit(vm.View(), mods)
    modifies vm, vm.reg, vm.mem, vm.timers.Repr(), vm.cache, vm.cache.bins
    ensures vm.Shaped() && CacheOk(vm) && (vm.cache.bins == old(vm.cache.bins) || fresh(vm.cache.bins))
    ensures Now(vm) == CachedModules(old(Now(vm)), mods, s)
  {
    hide RunModule, CacheOk, TimerBank.Valid, HashTable.Table.Valid, HashTable.Table.Map;
    ghost var target := CachedModules(Now(vm), mods, s);
    var i := 0;
    assert mods[0..] == mods;
    while i < |mods|
      invariant 0 <= i <= |mods|
      invariant vm.Shaped() && CacheOk(vm) && (vm.cache.bins == old(vm.cache.bins) || fresh(vm.cache.bins))
      invariant AllFit(Now(vm).m, mods) && CachedModules(Now(vm), mods[i..], s) == target
    {
      ghost var before := Now(vm);
      assert mods[i..][0] == mods[i] && mods[i..][1..] == mods[i + 1..];
      CachedFits(Enter(before.m, mods[i]), before.cache, mods[i], s, MAX_INSTRUCTIONS);
      RunWholeModule(vm, mods[i], s);
      i := i + 1;
    }
  }

  /** `update_all_timers` on the struct. */
  method UpdateTimers(vm: Vm)
    requires vm.Shaped()
    modifies vm.timers.Repr()
    ensures vm.View() == old(vm.View()).(rows := old(vm.View()).rows.Pass(vm.timeMs))
  {
    hide TimerBank.Valid, Update;
    ghost var before := BankView(vm.timers);
    vm.timers.UpdateAll(vm.timeMs);
    BankIs(vm.timers, before.Pass(vm.timeMs));
  }

  /** One cycle of `run_program`: modules, clock, timers. */
  method RunCycle(vm: Vm, mods: seq<ModuleInfo>, s: Setting, cycleMs: nat)
    requires vm.Shaped() && CacheOk(vm) && AllFit(vm.View(), mods)
    modifies vm, vm.reg, vm.mem, vm.timers.Repr(), vm.cache, vm.cache.bins
    ensures vm.Shaped() && CacheOk(vm) && (vm.cache.bins == old(vm.cache.bins) || fresh(vm.cache.bins))
    ensures Now(vm) == Cycle(old(Now(vm)), mods, s, cycleMs)
  {
    hide CachedModules, EndCycle, CacheOk, Vm.View, TimerBank.Valid, HashTable.Table.Valid, HashTable.Table.Map;
    vm.Parts();
    var start := vm.timeMs;
    RunModules(vm, mods, s);
    FinishCycle(vm, start + cycleMs);
  }

  /** The end of a cycle without tick timing. */
  method FinishCycle(vm: Vm, planned: nat)
    requires vm.Shaped() && CacheOk(vm)
    modifies vm`timeMs, vm.timers.Repr()
    ensures vm.Shaped() && CacheOk(vm)
    ensures Now(vm) == Snapshot(EndCycle(old(vm.View()), planned), old(vm.cache.Map()))
  {
    hide TimerBank.Valid, HashTable.Table.Valid, HashTable.Table.Map;
    if vm.timeMs < planned {
      vm.timeMs := planned;
    }
    UpdateTimers(vm);
  }

  /** The main loop of `run_program` for at most `k` cycles: a stop request ends it at a cycle start. */
  method RunProgram(vm: Vm, mods: seq<ModuleInfo>, s: Setting, cycleMs: nat, k: nat)
    requires vm.Shaped() && CacheOk(vm) && AllFit(vm.View(), mods)
    modifies vm, vm.reg, vm.mem, vm.timers.Repr(), vm.cache, vm.cache.bins
    ensures vm.Shaped() && CacheOk(vm)
    ensures Now(vm) == Cycles.Cycles(old(Now(vm)), mods, s, cycleMs, k)
  {
    hide CachedModules, CacheOk, EndCycle, TimerBank.Valid, HashTable.Table.Valid, HashTable.Table.Map;
    ghost var target := Cycles.Cycles(Now(vm), mods, s, cycleMs, k);
    var n := k;
    while n > 0 && !vm.stop
      invariant vm.Shaped() && CacheOk(vm) && (vm.cache.bins == old(vm.cache.bins) || fresh(vm.cache.bins))
      invariant AllFit(Now(vm).m, mods) && Cycles.Cycles(Now(vm), mods, s, cycleMs, n) == target
    {
      RunCycle(vm, mods, s, cycleMs);
      n := n - 1;
    }
  }

  /** A VM started on a program without stores: the whole stack of timers, hash table, cache and clock
      reaches the machine of the interpreter that decodes every word. */
  method RunStoreFree(vm: Vm, mods: seq<ModuleInfo>, s: Setting, cycleMs: nat, k: nat)
    requires vm.Shaped() && CacheOk(vm) && AllFit(vm.View(), mods) && vm.cache.Map() == map[]
    requires AllStoreFree(vm.View(), mods)
    modifies vm, vm.reg, vm.mem, vm.timers.Repr(), vm.cache, vm.cache.bins
    ensures vm.Shaped() && vm.View() == PlainCycles(old(vm.View()), mods, s, cycleMs, k)
  {
    hide CacheOk, AllStoreFree, PlainCycles, AllFit, TimerBank.Valid, HashTable.Table.Valid, HashTable.Table.Map;
    StoreFreeProgram(Now(vm), mods, s, cycleMs, k);
    RunProgram(vm, mods, s, cycleMs, k);
  }
}
