/** The scan cycle of run_program: every module in turn, then the clock, then the timers; and what
    holds over any number of cycles. */
module Cycles {
  import opened Encoding
  import opened OpTable
  import opened Timers
  import opened VmStrings
  import opened Machine
  import opened Loader
  import opened Runtime
  import opened RuntimeLaws

  /** The machine together with its instruction cache. */
  datatype Snapshot = Snapshot(m: Machine, cache: Cache)

  predicate AllFit(m: Machine, mods: seq<ModuleInfo>) {
    m.Valid() && forall i :: 0 <= i < |mods| ==> Fits(m, mods[i])
  }

  /** The first two assignments of `vm_run_module`. */
  function Enter(m: Machine, mod: ModuleInfo): (r: Machine)
    requires Fits(m, mod)
    ensures Fits(r, mod) && r.mem == m.mem && SameClock(m, r) && r.stop == m.stop
  {
    m.(running := true, pc := mod.addr)
  }

  /** The loop over the modules, decoding every word. */
  function PlainModules(m: Machine, mods: seq<ModuleInfo>, s: Setting): (r: Machine)
    requires AllFit(m, mods)
    ensures r.Valid() && |r.mem| == |m.mem|
    decreases |mods|
  {
    if mods == [] then m
    else
      PlainFits(Enter(m, mods[0]), mods[0], s, MAX_INSTRUCTIONS);
      PlainModules(PlainRun(Enter(m, mods[0]), mods[0], s, MAX_INSTRUCTIONS).m, mods[1..], s)
  }

  /** The loop over the modules of `run_program`. */
  function CachedModules(v: Snapshot, mods: seq<ModuleInfo>, s: Setting): (r: Snapshot)
    requires AllFit(v.m, mods)
    ensures r.m.Valid() && |r.m.mem| == |v.m.mem|
    decreases |mods|
  {
    if mods == [] then v
    else
      CachedFits(Enter(v.m, mods[0]), v.cache, mods[0], s, MAX_INSTRUCTIONS);
      CachedModules(RunModule(v, mods[0], s), mods[1..], s)
  }

  /** `vm_run_module`. */
  function RunModule(v: Snapshot, mod: ModuleInfo, s: Setting): Snapshot
    requires Fits(v.m, mod)
  {
    var r := CachedRun(Enter(v.m, mod), v.cache, mod, s, MAX_INSTRUCTIONS);
    Snapshot(r.m, r.cache)
  }

  lemma {:induction false} PlainFits(m: Machine, mod: ModuleInfo, s: Setting, n: nat)
    requires Fits(m, mod)
    ensures var r := PlainRun(m, mod, s, n).m; r.Valid() && |r.mem| == |m.mem|
    decreases n
  {
    hide Dispatch, Opcode, WordAt;
    if n > 0 && m.running && FetchAt(m, mod).Run? {
      var w := FetchAt(m, mod).w;
      DispatchValid(Opcode(w) as nat, w, m, s);
      PlainFits(Dispatch(Opcode(w) as nat, w, m, s), mod, s, n - 1);
    }
  }

  lemma {:induction false} CachedFits(m: Machine, cache: Cache, mod: ModuleInfo, s: Setting, n: nat)
    requires Fits(m, mod)
    ensures var r := CachedRun(m, cache, mod, s, n).m; r.Valid() && |r.mem| == |m.mem|
    decreases n
  {
    hide Dispatch, Opcode, WordAt, Lookup;
    if n > 0 && m.running && FetchAt(m, mod).Run? {
      var w, d := FetchAt(m, mod).w, Lookup(m, cache);
      DispatchValid(Opcode(w) as nat, d.raw, m, s);
      CachedFits(Dispatch(Opcode(w) as nat, d.raw, m, s), cache[m.pc := d], mod, s, n - 1);
    }
  }

  function Max(a: nat, b: nat): nat { if a < b then b else a }

  /** The end of a cycle without tick timing: the clock is moved up to the planned end, and all timers
      are updated at that instant. */
  function EndCycle(m: Machine, planned: nat): (r: Machine)
    requires m.Valid()
    ensures r.Valid() && r.mem == m.mem && r.timeMs == Max(m.timeMs, planned)
    ensures r.nsAccum == m.nsAccum && r.executed == m.executed && r.stop == m.stop
  {
    var now := Max(m.timeMs, planned);
    m.(timeMs := now, rows := m.rows.Pass(now))
  }

  /** One cycle, decoding every word. */
  function PlainCycle(m: Machine, mods: seq<ModuleInfo>, s: Setting, cycleMs: nat): (r: Machine)
    requires AllFit(m, mods)
    ensures r.Valid() && |r.mem| == |m.mem|
  {
    EndCycle(PlainModules(m, mods, s), m.timeMs + cycleMs)
  }

  /** One cycle of `run_program`. */
  function Cycle(v: Snapshot, mods: seq<ModuleInfo>, s: Setting, cycleMs: nat): (r: Snapshot)
    requires AllFit(v.m, mods)
    ensures r.m.Valid() && |r.m.mem| == |v.m.mem|
  {
    var after := CachedModules(v, mods, s);
    Snapshot(EndCycle(after.m, v.m.timeMs + cycleMs), after.cache)
  }

  /** At most `k` cycles, decoding every word; a stop request ends the run at the next cycle start. */
  function PlainCycles(m: Machine, mods: seq<ModuleInfo>, s: Setting, cycleMs: nat, k: nat): Machine
    requires AllFit(m, mods)
    decreases k
  {
    if k == 0 || m.stop then m else PlainCycles(PlainCycle(m, mods, s, cycleMs), mods, s, cycleMs, k - 1)
  }

  /** At most `k` cycles of `run_program`. */
  function Cycles(v: Snapshot, mods: seq<ModuleInfo>, s: Setting, cycleMs: nat, k: nat): Snapshot
    requires AllFit(v.m, mods)
    decreases k
  {
    if k == 0 || v.m.stop then v else Cycles(Cycle(v, mods, s, cycleMs), mods, s, cycleMs, k - 1)
  }

  // ------------------------------------------------------------------
  // The cache is invisible over whole runs
  // ------------------------------------------------------------------

  /** No store of the modules changes a word cached by then. */
  predicate UntouchedModules(v: Snapshot, mods: seq<ModuleInfo>, s: Setting)
    requires AllFit(v.m, mods)
    decreases |mods|
  {
    mods == [] ||
    (CachedFits(Enter(v.m, mods[0]), v.cache, mods[0], s, MAX_INSTRUCTIONS);
    && UntouchedRun(Enter(v.m, mods[0]), v.cache, mods[0], s, MAX_INSTRUCTIONS)
    && UntouchedModules(RunModule(v, mods[0], s), mods[1..], s))
  }

  /** No store of up to `k` cycles changes a word cached by then. */
  predicate UntouchedCycles(v: Snapshot, mods: seq<ModuleInfo>, s: Setting, cycleMs: nat, k: nat)
    requires AllFit(v.m, mods)
    decreases k
  {
    k == 0 || v.m.stop ||
    (UntouchedModules(v, mods, s) && UntouchedCycles(Cycle(v, mods, s, cycleMs), mods, s, cycleMs, k - 1))
  }

  /** One pass over the modules. */
  lemma {:induction false} ModulesInvisible(v: Snapshot, mods: seq<ModuleInfo>, s: Setting)
    requires AllFit(v.m, mods) && Coherent(v.m, v.cache) && UntouchedModules(v, mods, s)
    ensures var r := CachedModules(v, mods, s);
            r.m == PlainModules(v.m, mods, s) && Coherent(r.m, r.cache)
    decreases |mods|
  {
    hide PlainRun, CachedRun, UntouchedRun, Coherent, Enter;
    if mods != [] {
      var start := Enter(v.m, mods[0]);
      CoherentKept2(v.m, start, v.cache);
      CacheInvisible(start, v.cache, mods[0], s, MAX_INSTRUCTIONS);
      CachedFits(start, v.cache, mods[0], s, MAX_INSTRUCTIONS);
      ModulesInvisible(RunModule(v, mods[0], s), mods[1..], s);
    }
  }

  /** From a coherent cache, any number of cycles reach the machine that an interpreter decoding every
      word reaches, as long as no store changes a cached word. */
  lemma {:induction false} CyclesInvisible(v: Snapshot, mods: seq<ModuleInfo>, s: Setting, cycleMs: nat, k: nat)
    requires AllFit(v.m, mods) && Coherent(v.m, v.cache) && UntouchedCycles(v, mods, s, cycleMs, k)
    ensures var r := Cycles(v, mods, s, cycleMs, k);
            r.m == PlainCycles(v.m, mods, s, cycleMs, k) && Coherent(r.m, r.cache)
    decreases k
  {
    hide CachedModules, PlainModules, UntouchedModules, Coherent, EndCycle;
    if k > 0 && !v.m.stop {
      ModulesInvisible(v, mods, s);
      var after := CachedModules(v, mods, s);
      var next := Cycle(v, mods, s, cycleMs);
      CoherentKept2(after.m, next.m, after.cache);
      CyclesInvisible(next, mods, s, cycleMs, k - 1);
    }
  }

  // ------------------------------------------------------------------
  // Programs without store instructions
  // ------------------------------------------------------------------

  ghost predicate AllStoreFree(m: Machine, mods: seq<ModuleInfo>)
    requires AllFit(m, mods)
  {
    forall i :: 0 <= i < |mods| ==> StoreFree(m.mem, mods[i])
  }

  lemma {:induction false} StoreFreeModules(v: Snapshot, mods: seq<ModuleInfo>, s: Setting)
    requires AllFit(v.m, mods) && Coherent(v.m, v.cache) && AllStoreFree(v.m, mods)
    ensures UntouchedModules(v, mods, s) && CachedModules(v, mods, s).m.mem == v.m.mem
    decreases |mods|
  {
    hide PlainRun, CachedRun, UntouchedRun, Coherent, StoreFree, Enter;
    if mods != [] {
      var start := Enter(v.m, mods[0]);
      CoherentKept2(v.m, start, v.cache);
      assert StoreFree(start.mem, mods[0]);
      StoreFreeUntouched(start, v.cache, mods[0], s, MAX_INSTRUCTIONS);
      CacheInvisible(start, v.cache, mods[0], s, MAX_INSTRUCTIONS);
      CachedFits(start, v.cache, mods[0], s, MAX_INSTRUCTIONS);
      StoreFreeModules(RunModule(v, mods[0], s), mods[1..], s);
    }
  }

  /** A program whose modules hold no store instruction leaves memory alone in every cycle, so its hash
      never changes. */
  lemma {:induction false} StoreFreeCycles(v: Snapshot, mods: seq<ModuleInfo>, s: Setting, cycleMs: nat, k: nat)
    requires AllFit(v.m, mods) && Coherent(v.m, v.cache) && AllStoreFree(v.m, mods)
    ensures UntouchedCycles(v, mods, s, cycleMs, k) && Cycles(v, mods, s, cycleMs, k).m.mem == v.m.mem
    decreases k
  {
    hide CachedModules, PlainModules, UntouchedModules, Coherent, StoreFree, EndCycle;
    if k > 0 && !v.m.stop {
      StoreFreeModules(v, mods, s);
      ModulesInvisible(v, mods, s);
      var after := CachedModules(v, mods, s);
      var next := Cycle(v, mods, s, cycleMs);
      CoherentKept2(after.m, next.m, after.cache);
      StoreFreeCycles(next, mods, s, cycleMs, k - 1);
    }
  }

  /** The check of a store-free program is on memory alone, before the first cycle: whatever its inputs,
      timers and jumps do, running it with the cache is running it without. */
  lemma StoreFreeProgram(v: Snapshot, mods: seq<ModuleInfo>, s: Setting, cycleMs: nat, k: nat)
    requires AllFit(v.m, mods) && v.cache == map[] && AllStoreFree(v.m, mods)
    ensures Cycles(v, mods, s, cycleMs, k).m == PlainCycles(v.m, mods, s, cycleMs, k)
    ensures forall start, size :: HashOf(Cycles(v, mods, s, cycleMs, k).m.mem, start, size) == HashOf(v.m.mem, start, size)
  {
    hide UntouchedCycles, AllStoreFree;
    assert Coherent(v.m, v.cache);
    StoreFreeCycles(v, mods, s, cycleMs, k);
    CyclesInvisible(v, mods, s, cycleMs, k);
  }

  // ------------------------------------------------------------------
  // Time
  // ------------------------------------------------------------------

  /** The modules of one cycle move the clock by exactly the instructions executed. */
  lemma {:induction false} ModulesClock(v: Snapshot, mods: seq<ModuleInfo>, s: Setting)
    requires AllFit(v.m, mods) && v.m.nsAccum < NS_PER_MS
    ensures var r := CachedModules(v, mods, s).m;
            && r.nsAccum < NS_PER_MS && r.timeMs >= v.m.timeMs
            && v.m.executed <= r.executed <= v.m.executed + |mods| * MAX_INSTRUCTIONS
            && Nanos(r) == Nanos(v.m) + (r.executed - v.m.executed) * InstrNs(s.rate)
    decreases |mods|
  {
    hide CachedRun, InstrNs, Enter;
    if mods != [] {
      var start := Enter(v.m, mods[0]);
      CachedFits(start, v.cache, mods[0], s, MAX_INSTRUCTIONS);
      RunClock(start, v.cache, mods[0], s, MAX_INSTRUCTIONS);
      var next := RunModule(v, mods[0], s);
      ModulesClock(next, mods[1..], s);
      var end := CachedModules(next, mods[1..], s).m;
      Distribute(next.m.executed - v.m.executed, end.executed - next.m.executed, InstrNs(s.rate));
    }
  }

  lemma Distribute(a: nat, b: nat, d: nat)
    ensures (a + b) * d == a * d + b * d
  {
  }

  lemma NanosOf(ms: nat, ns: nat)
    requires ns < NS_PER_MS
    ensures (ms * NS_PER_MS + ns) / NS_PER_MS == ms && (ms * NS_PER_MS + ns) % NS_PER_MS == ns
  {
  }

  /** The clock in nanoseconds `n` instructions later. */
  function NanosAfter(m: Machine, n: nat, rate: nat): nat {
    Nanos(m) + n * InstrNs(rate)
  }

  /** A cycle ends when its instructions end or at its planned end, whichever is later: in
      milliseconds, with the exact sub-millisecond remainder carried into the next cycle. */
  lemma CycleEnds(v: Snapshot, mods: seq<ModuleInfo>, s: Setting, cycleMs: nat)
    requires AllFit(v.m, mods) && v.m.nsAccum < NS_PER_MS
    ensures var r := Cycle(v, mods, s, cycleMs).m;
            && v.m.executed <= r.executed <= v.m.executed + |mods| * MAX_INSTRUCTIONS
            && var total := NanosAfter(v.m, r.executed - v.m.executed, s.rate);
               r.timeMs == Max(total / NS_PER_MS, v.m.timeMs + cycleMs) && r.nsAccum == total % NS_PER_MS
  {
    hide CachedModules, InstrNs, EndCycle;
    ModulesClock(v, mods, s);
    var after := CachedModules(v, mods, s).m;
    NanosOf(after.timeMs, after.nsAccum);
  }

  /** Over any number of cycles the clock never goes back, and each cycle takes at least its planned time. */
  lemma {:induction false} TimeMonotone(v: Snapshot, mods: seq<ModuleInfo>, s: Setting, cycleMs: nat, k: nat)
    requires AllFit(v.m, mods) && v.m.nsAccum < NS_PER_MS
    ensures var r := Cycles(v, mods, s, cycleMs, k).m;
            && r.nsAccum < NS_PER_MS && r.timeMs >= v.m.timeMs
            && (!r.stop ==> r.timeMs >= v.m.timeMs + k * cycleMs)
    decreases k
  {
    hide CachedModules, EndCycle;
    if k > 0 && !v.m.stop {
      ModulesClock(v, mods, s);
      var next := Cycle(v, mods, s, cycleMs);
      TimeMonotone(next, mods, s, cycleMs, k - 1);
      Distribute(k - 1, 1, cycleMs);
    }
  }
}
