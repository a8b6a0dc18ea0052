/** A module run executes its program: where it starts, what ends it, and how modules and cycles follow
    one another. */
module ModuleRuns {
  import opened Words
  import opened Encoding
  import opened OpTable
  import opened VmStrings
  import opened Machine
  import opened Loader
  import opened Runtime
  import opened RuntimeLaws
  import opened Cycles

  /** A module run is its first instruction, fetched at the module's address, and the run that follows. */
  lemma ModuleStarts(v: Snapshot, mod: ModuleInfo, s: Setting)
    requires Fits(v.m, mod) && mod.size > 0
    requires var w := WordAt(v.m.mem, mod.addr); w != 0 && Opcode(w) as nat < OPCODES
    ensures var w := WordAt(v.m.mem, mod.addr);
            var d := if mod.addr in v.cache then v.cache[mod.addr] else Decode(w);
            var next := Dispatch(Opcode(w) as nat, d.raw, v.m.(running := true, pc := mod.addr), s);
            && Fits(next, mod)
            && var r := CachedRun(next, v.cache[mod.addr := d], mod, s, MAX_INSTRUCTIONS - 1);
               RunModule(v, mod, s) == Snapshot(r.m, r.cache)
  {
    hide Dispatch, Opcode, WordAt, Decode;
    var w := WordAt(v.m.mem, mod.addr);
    var d := if mod.addr in v.cache then v.cache[mod.addr] else Decode(w);
    DispatchFits(Opcode(w) as nat, d.raw, v.m.(running := true, pc := mod.addr), mod, s);
  }

  /** With nothing cached at its address the first word is the one in memory. */
  lemma ModuleStartsFresh(v: Snapshot, mod: ModuleInfo, s: Setting)
    requires Fits(v.m, mod) && mod.size > 0 && mod.addr !in v.cache
    requires var w := WordAt(v.m.mem, mod.addr); w != 0 && Opcode(w) as nat < OPCODES
    ensures var w := WordAt(v.m.mem, mod.addr);
            var next := Dispatch(Opcode(w) as nat, w, v.m.(running := true, pc := mod.addr), s);
            && Fits(next, mod)
            && var r := CachedRun(next, v.cache[mod.addr := Decode(w)], mod, s, MAX_INSTRUCTIONS - 1);
               RunModule(v, mod, s) == Snapshot(r.m, r.cache)
  {
    hide Dispatch, Opcode, WordAt, Decode, CachedRun;
    DecodeRaw(WordAt(v.m.mem, mod.addr));
    ModuleStarts(v, mod, s);
  }

  /** A module that is empty or starts with a zero word is left at once. */
  lemma NothingToRun(v: Snapshot, mod: ModuleInfo, s: Setting)
    requires Fits(v.m, mod) && (mod.size == 0 || WordAt(v.m.mem, mod.addr) == 0)
    ensures RunModule(v, mod, s) == Snapshot(v.m.(running := true, pc := mod.addr), v.cache)
  {
    hide WordAt, Opcode;
  }

  /** A first word without a handler stops the module before it has done anything but decode. */
  lemma IllegalStart(v: Snapshot, mod: ModuleInfo, s: Setting)
    requires Fits(v.m, mod) && mod.size > 0 && mod.addr !in v.cache
    requires var w := WordAt(v.m.mem, mod.addr); w != 0 && Opcode(w) as nat >= OPCODES
    ensures RunModule(v, mod, s) ==
            Snapshot(v.m.(running := false, pc := mod.addr), v.cache[mod.addr := Decode(WordAt(v.m.mem, mod.addr))])
  {
    hide WordAt, Opcode, Decode;
  }

  lemma FitsLater(m: Machine, n: Machine, mods: seq<ModuleInfo>)
    requires AllFit(m, mods) && n.Valid() && |n.mem| == |m.mem|
    ensures AllFit(n, mods)
  {
  }

  /** One module run, and the others after it. */
  lemma FirstModule(v: Snapshot, mods: seq<ModuleInfo>, s: Setting)
    requires AllFit(v.m, mods) && mods != []
    ensures Fits(v.m, mods[0]) && var next := RunModule(v, mods[0], s);
            AllFit(next.m, mods[1..]) && |next.m.mem| == |v.m.mem| && CachedModules(v, mods, s) == CachedModules(next, mods[1..], s)
  {
    hide CachedRun;
    CachedFits(v.m.(running := true, pc := mods[0].addr), v.cache, mods[0], s, MAX_INSTRUCTIONS);
  }

  /** The modules run in the order of the list. */
  lemma {:induction false} ModulesInOrder(v: Snapshot, a: seq<ModuleInfo>, b: seq<ModuleInfo>, s: Setting)
    requires AllFit(v.m, a) && AllFit(v.m, b)
    ensures AllFit(v.m, a + b) && AllFit(CachedModules(v, a, s).m, b)
    ensures CachedModules(v, a + b, s) == CachedModules(CachedModules(v, a, s), b, s)
    decreases |a|
  {
    hide RunModule, Fits;
    if a == [] {
      assert a + b == b;
    } else {
      assert (a + b)[0] == a[0] && (a + b)[1..] == a[1..] + b;
      FirstModule(v, a, s);
      FirstModule(v, a + b, s);
      FitsLater(v.m, RunModule(v, a[0], s).m, b);
      ModulesInOrder(RunModule(v, a[0], s), a[1..], b, s);
    }
  }

  /** A stop request ends the run at the next cycle start, and no cycle is lost or repeated. */
  lemma {:induction false} CyclesFollow(v: Snapshot, mods: seq<ModuleInfo>, s: Setting, cycleMs: nat, j: nat, k: nat)
    requires AllFit(v.m, mods)
    ensures var r := Cycles.Cycles(v, mods, s, cycleMs, j);
            && AllFit(r.m, mods) && Cycles.Cycles(v, mods, s, cycleMs, j + k) == Cycles.Cycles(r, mods, s, cycleMs, k)
            && (r.m.stop ==> Cycles.Cycles(v, mods, s, cycleMs, j + k) == r)
    decreases j
  {
    hide Cycle, Fits;
    if j > 0 && !v.m.stop {
      FitsLater(v.m, Cycle(v, mods, s, cycleMs).m, mods);
      CyclesFollow(Cycle(v, mods, s, cycleMs), mods, s, cycleMs, j - 1, k);
    }
  }

  /** One cycle. */
  lemma OneCycle(v: Snapshot, mods: seq<ModuleInfo>, s: Setting, cycleMs: nat)
    requires AllFit(v.m, mods)
    ensures Cycles.Cycles(v, mods, s, cycleMs, 1) == if v.m.stop then v else Cycle(v, mods, s, cycleMs)
  {
    hide Cycle, Fits;
    if !v.m.stop {
      FitsLater(v.m, Cycle(v, mods, s, cycleMs).m, mods);
    }
  }
}
