/** Timers in running programs: the state of every timer is that of a trace with one sample for each
    instruction that drove it and one for each cycle end. */
module TimerRuns {
  import opened Words
  import opened Encoding
  import opened OpTable
  import opened Timers
  import opened TimerTraces
  import opened TimerIdeal
  import opened Machine
  import opened Loader
  import opened Runtime
  import opened RuntimeLaws
  import opened Cycles
  import Blocks

  // ------------------------------------------------------------------
  // One instruction
  // ------------------------------------------------------------------

  /** The instruction drives timer `id` of a kind: TON, TOF or TP with that immediate. */
  predicate Calls(k: Kind, id: nat, op: nat, w: bv32) {
    ((k == TON && op == 47) || (k == TOF && op == 48) || (k == TP && op == 49)) && HasImm(w) && RegC(w) == id
  }

  /** The sample it gives: register B, the register with the number of the timer, and the time. */
  function CallSample(id: nat, w: bv32, m: Machine): Sample
    requires m.Valid() && id < MAX_TIMERS
  {
    Sample(m.reg[RegB(w)] != 0, m.reg[id] as nat, m.timeMs)
  }

  function Called(k: Kind, id: nat, op: nat, w: bv32, m: Machine): TimerState
    requires m.Valid() && id < MAX_TIMERS
  {
    if Calls(k, id, op, w) then var c := CallSample(id, w, m); Set(k, m.rows.Row(k)[id], c.input, c.preset, c.now)
    else m.rows.Row(k)[id]
  }

  lemma TimerOpRows(l: Kind, w: bv32, m: Machine)
    requires m.Valid()
    ensures TimerOp(l, w, m).rows ==
            if HasImm(w) && RegC(w) < MAX_TIMERS then
              var c := CallSample(RegC(w), w, m); m.rows.With(l, RegC(w), Set(l, m.rows.Row(l)[RegC(w)], c.input, c.preset, c.now))
            else m.rows
  {
    hide Set, RegA, RegB, RegC, HasImm, Rows.With, Rows.Row, Flag;
  }

  lemma WithAt(rows: Rows, l: Kind, i: nat, t: TimerState, k: Kind, id: nat)
    requires rows.Valid() && i < MAX_TIMERS && id < MAX_TIMERS
    ensures rows.With(l, i, t).Valid() && rows.With(l, i, t).Row(k)[id] == if k == l && id == i then t else rows.Row(k)[id]
  {
    hide Rows.With;
  }

  lemma TimerOpCalls(k: Kind, l: Kind, id: nat, w: bv32, m: Machine)
    requires m.Valid() && id < MAX_TIMERS
    ensures TimerOp(l, w, m).rows.Row(k)[id] ==
            if k == l && HasImm(w) && RegC(w) == id then
              var c := CallSample(id, w, m); Set(k, m.rows.Row(k)[id], c.input, c.preset, c.now)
            else m.rows.Row(k)[id]
  {
    hide TimerOp, Set, RegB, RegC, HasImm, Rows.With, CallSample;
    TimerOpRows(l, w, m);
    if HasImm(w) && RegC(w) < MAX_TIMERS {
      var c := CallSample(RegC(w), w, m);
      WithAt(m.rows, l, RegC(w), Set(l, m.rows.Row(l)[RegC(w)], c.input, c.preset, c.now), k, id);
    }
  }

  lemma OthersKeepRows(op: nat, w: bv32, m: Machine, env: Env)
    requires m.Valid() && op < OPCODES && (op < 47 || op > 49)
    ensures Exec(op, w, m, env).rows == m.rows
  {
    hide Alu, Edit, Selected, CValue, Jump, Demux, RegA, RegB, RegC, HasImm, Banks.WithUp, Banks.WithDown, Banks.WithUpDown;
    hide StepUp, StepDown, AtPreset, UnderPreset, ToWord, EdgeId, EdgeSeen, EdgeStored, Flag;
  }

  lemma TimersExec(w: bv32, m: Machine, env: Env)
    requires m.Valid()
    ensures Exec(47, w, m, env) == TimerOp(TON, w, m) && Exec(48, w, m, env) == TimerOp(TOF, w, m) && Exec(49, w, m, env) == TimerOp(TP, w, m)
  {
    hide TimerOp;
  }

  /** One handler call: timer by timer. */
  lemma ExecCalls(op: nat, w: bv32, m: Machine, env: Env, k: Kind, id: nat)
    requires m.Valid() && op < OPCODES && id < MAX_TIMERS
    ensures Exec(op, w, m, env).rows.Valid() && Exec(op, w, m, env).rows.Row(k)[id] == Called(k, id, op, w, m)
  {
    hide Exec, TimerOp, Set, HasImm, RegB, RegC, CallSample;
    ExecValid(op, w, m, env);
    TimersExec(w, m, env);
    if op < 47 || op > 49 {
      OthersKeepRows(op, w, m, env);
    } else {
      TimerOpCalls(k, if op == 47 then TON else if op == 48 then TOF else TP, id, w, m);
    }
  }

  lemma DispatchCalls(op: nat, w: bv32, m: Machine, s: Setting, k: Kind, id: nat)
    requires m.Valid() && op < OPCODES && id < MAX_TIMERS
    ensures Dispatch(op, w, m, s).rows.Valid() && Dispatch(op, w, m, s).rows.Row(k)[id] == Called(k, id, op, w, m)
  {
    hide Exec, Called;
    ExecCalls(op, w, m, s.env, k, id);
  }

  /** The trace of a timer after one more instruction. */
  function CallHistory(tr: Trace, k: Kind, id: nat, op: nat, w: bv32, m: Machine): Trace
    requires m.Valid() && id < MAX_TIMERS
  {
    if Calls(k, id, op, w) then tr + [CallSample(id, w, m)] else tr
  }

  lemma CallTraced(tr: Trace, k: Kind, id: nat, op: nat, w: bv32, m: Machine)
    requires m.Valid() && id < MAX_TIMERS && m.rows.Row(k)[id] == TimerTraces.Run(k, tr)
    ensures Called(k, id, op, w, m) == TimerTraces.Run(k, CallHistory(tr, k, id, op, w, m))
  {
    hide Set, Calls, CallSample;
    var c := CallSample(id, w, m);
    assert (tr + [c])[..|tr|] == tr;
  }

  // ------------------------------------------------------------------
  // A module run, the modules, cycles
  // ------------------------------------------------------------------

  /** The trace after a run of the cached loop. */
  function RunHistory(tr: Trace, m: Machine, cache: Cache, mod: ModuleInfo, s: Setting, n: nat, k: Kind, id: nat): Trace
    requires Fits(m, mod) && id < MAX_TIMERS
    decreases n
  {
    if n == 0 || !m.running || !FetchAt(m, mod).Run? then tr
    else
      var w, d := FetchAt(m, mod).w, Lookup(m, cache);
      DispatchFits(Opcode(w) as nat, d.raw, m, mod, s);
      RunHistory(CallHistory(tr, k, id, Opcode(w) as nat, d.raw, m), Dispatch(Opcode(w) as nat, d.raw, m, s), cache[m.pc := d], mod, s, n - 1, k, id)
  }

  lemma {:induction false} RunTraced(tr: Trace, m: Machine, cache: Cache, mod: ModuleInfo, s: Setting, n: nat, k: Kind, id: nat)
    requires Fits(m, mod) && id < MAX_TIMERS && m.rows.Row(k)[id] == TimerTraces.Run(k, tr)
    ensures var r := CachedRun(m, cache, mod, s, n).m;
            r.Valid() && r.rows.Row(k)[id] == TimerTraces.Run(k, RunHistory(tr, m, cache, mod, s, n, k, id))
    decreases n
  {
    hide Dispatch, Opcode, Lookup, WordAt, Called, CallHistory, TimerTraces.Run;
    if n > 0 && m.running && FetchAt(m, mod).Run? {
      var w, d := FetchAt(m, mod).w, Lookup(m, cache);
      var op := Opcode(w) as nat;
      DispatchValid(op, d.raw, m, s);
      DispatchCalls(op, d.raw, m, s, k, id);
      CallTraced(tr, k, id, op, d.raw, m);
      RunTraced(CallHistory(tr, k, id, op, d.raw, m), Dispatch(op, d.raw, m, s), cache[m.pc := d], mod, s, n - 1, k, id);
    }
  }

  /** The trace after the modules of one cycle. */
  function ModulesHistory(tr: Trace, v: Snapshot, mods: seq<ModuleInfo>, s: Setting, k: Kind, id: nat): Trace
    requires AllFit(v.m, mods) && id < MAX_TIMERS
    decreases |mods|
  {
    if mods == [] then tr
    else
      var start := v.m.(running := true, pc := mods[0].addr);
      CachedFits(start, v.cache, mods[0], s, MAX_INSTRUCTIONS);
      ModulesHistory(RunHistory(tr, start, v.cache, mods[0], s, MAX_INSTRUCTIONS, k, id), RunModule(v, mods[0], s), mods[1..], s, k, id)
  }

  lemma {:induction false} ModulesTraced(tr: Trace, v: Snapshot, mods: seq<ModuleInfo>, s: Setting, k: Kind, id: nat)
    requires AllFit(v.m, mods) && id < MAX_TIMERS && v.m.rows.Row(k)[id] == TimerTraces.Run(k, tr)
    ensures CachedModules(v, mods, s).m.rows.Row(k)[id] == TimerTraces.Run(k, ModulesHistory(tr, v, mods, s, k, id))
    decreases |mods|
  {
    hide CachedRun, RunHistory, TimerTraces.Run;
    if mods != [] {
      var start := v.m.(running := true, pc := mods[0].addr);
      CachedFits(start, v.cache, mods[0], s, MAX_INSTRUCTIONS);
      RunTraced(tr, start, v.cache, mods[0], s, MAX_INSTRUCTIONS, k, id);
      ModulesTraced(RunHistory(tr, start, v.cache, mods[0], s, MAX_INSTRUCTIONS, k, id), RunModule(v, mods[0], s), mods[1..], s, k, id);
    }
  }

  /** A pass over all timers repeats the last sample, and leaves a timer alone that was never driven. */
  function PassHistory(tr: Trace, now: nat): Trace {
    if tr == [] then [] else tr + [Sample(tr[|tr| - 1].input, tr[|tr| - 1].preset, now)]
  }

  lemma UpdateKeeps(k: Kind, t: TimerState, now: nat)
    ensures var u := Update(k, t, now); u.enabled == t.enabled && u.input == t.input && u.preset == t.preset
  {
    hide MsDiff, Split;
  }

  lemma IdleStays(k: Kind, now: nat)
    ensures Update(k, IDLE, now) == IDLE
  {
    hide MsDiff, Split;
  }

  lemma PassTraced(k: Kind, tr: Trace, now: nat)
    ensures Update(k, TimerTraces.Run(k, tr), now) == TimerTraces.Run(k, PassHistory(tr, now))
  {
    hide Update;
    if tr == [] {
      IdleStays(k, now);
    } else {
      var last := tr[|tr| - 1];
      UpdateKeeps(k, TimerTraces.Run(k, tr[..|tr| - 1]).(input := last.input, preset := last.preset, enabled := true), last.now);
      PassIsSample(k, TimerTraces.Run(k, tr), now);
      assert PassHistory(tr, now)[..|tr|] == tr;
    }
  }

  /** At the end of a cycle every timer of every kind is updated once, at the time the cycle ends. */
  lemma CycleUpdates(v: Snapshot, mods: seq<ModuleInfo>, s: Setting, cycleMs: nat, k: Kind, id: nat)
    requires AllFit(v.m, mods) && id < MAX_TIMERS
    ensures var r := Cycle(v, mods, s, cycleMs).m;
            r.rows.Row(k)[id] == Update(k, CachedModules(v, mods, s).m.rows.Row(k)[id], r.timeMs)
  {
    hide CachedModules, Update;
  }

  /** The trace after a cycle. */
  function CycleHistory(tr: Trace, v: Snapshot, mods: seq<ModuleInfo>, s: Setting, cycleMs: nat, k: Kind, id: nat): Trace
    requires AllFit(v.m, mods) && id < MAX_TIMERS
  {
    PassHistory(ModulesHistory(tr, v, mods, s, k, id), Cycle(v, mods, s, cycleMs).m.timeMs)
  }

  lemma CycleTraced(tr: Trace, v: Snapshot, mods: seq<ModuleInfo>, s: Setting, cycleMs: nat, k: Kind, id: nat)
    requires AllFit(v.m, mods) && id < MAX_TIMERS && v.m.rows.Row(k)[id] == TimerTraces.Run(k, tr)
    ensures Cycle(v, mods, s, cycleMs).m.rows.Row(k)[id] == TimerTraces.Run(k, CycleHistory(tr, v, mods, s, cycleMs, k, id))
  {
    hide Cycle, ModulesHistory, TimerTraces.Run, Update, PassHistory;
    CycleUpdates(v, mods, s, cycleMs, k, id);
    ModulesTraced(tr, v, mods, s, k, id);
    PassTraced(k, ModulesHistory(tr, v, mods, s, k, id), Cycle(v, mods, s, cycleMs).m.timeMs);
  }

  /** The trace after up to `n` cycles. */
  function CyclesHistory(tr: Trace, v: Snapshot, mods: seq<ModuleInfo>, s: Setting, cycleMs: nat, n: nat, k: Kind, id: nat): Trace
    requires AllFit(v.m, mods) && id < MAX_TIMERS
    decreases n
  {
    if n == 0 || v.m.stop then tr
    else CyclesHistory(CycleHistory(tr, v, mods, s, cycleMs, k, id), Cycle(v, mods, s, cycleMs), mods, s, cycleMs, n - 1, k, id)
  }

  /** Over any number of cycles of any program, every timer is where the trace of its calls and cycle
      ends leads. */
  lemma {:induction false} CyclesTraced(tr: Trace, v: Snapshot, mods: seq<ModuleInfo>, s: Setting, cycleMs: nat, n: nat, k: Kind, id: nat)
    requires AllFit(v.m, mods) && id < MAX_TIMERS && v.m.rows.Row(k)[id] == TimerTraces.Run(k, tr)
    ensures var r := Cycles.Cycles(v, mods, s, cycleMs, n).m;
            r.Valid() && r.rows.Row(k)[id] == TimerTraces.Run(k, CyclesHistory(tr, v, mods, s, cycleMs, n, k, id))
    decreases n
  {
    hide Cycle, CycleHistory, TimerTraces.Run;
    if n > 0 && !v.m.stop {
      CycleTraced(tr, v, mods, s, cycleMs, k, id);
      CyclesTraced(CycleHistory(tr, v, mods, s, cycleMs, k, id), Cycle(v, mods, s, cycleMs), mods, s, cycleMs, n - 1, k, id);
    }
  }

  /** From power-on the trace starts empty. */
  lemma TracedFromPowerOn(v: Snapshot, mods: seq<ModuleInfo>, s: Setting, cycleMs: nat, n: nat, k: Kind, id: nat)
    requires AllFit(v.m, mods) && id < MAX_TIMERS && v.m.rows == Created(0).rows
    ensures var r := Cycles.Cycles(v, mods, s, cycleMs, n).m;
            r.Valid() && r.rows.Row(k)[id] == TimerTraces.Run(k, CyclesHistory([], v, mods, s, cycleMs, n, k, id))
  {
    hide Cycle, CyclesHistory;
    assert v.m.rows.Row(k)[id] == IDLE;
    CyclesTraced([], v, mods, s, cycleMs, n, k, id);
  }

  // ------------------------------------------------------------------
  // The retentive timers
  // ------------------------------------------------------------------

  lemma {:induction false} RunNeverCalls(m: Machine, cache: Cache, mod: ModuleInfo, s: Setting, n: nat, k: Kind, id: nat)
    requires Fits(m, mod) && id < MAX_TIMERS && (k == TONR || k == TOFR)
    ensures RunHistory([], m, cache, mod, s, n, k, id) == []
    decreases n
  {
    hide Dispatch, Opcode, Lookup, WordAt, CallSample;
    if n > 0 && m.running && FetchAt(m, mod).Run? {
      var w, d := FetchAt(m, mod).w, Lookup(m, cache);
      DispatchFits(Opcode(w) as nat, d.raw, m, mod, s);
      RunNeverCalls(Dispatch(Opcode(w) as nat, d.raw, m, s), cache[m.pc := d], mod, s, n - 1, k, id);
    }
  }

  lemma {:induction false} ModulesNeverCall(v: Snapshot, mods: seq<ModuleInfo>, s: Setting, k: Kind, id: nat)
    requires AllFit(v.m, mods) && id < MAX_TIMERS && (k == TONR || k == TOFR)
    ensures ModulesHistory([], v, mods, s, k, id) == []
    decreases |mods|
  {
    hide CachedRun, RunHistory;
    if mods != [] {
      var start := v.m.(running := true, pc := mods[0].addr);
      CachedFits(start, v.cache, mods[0], s, MAX_INSTRUCTIONS);
      RunNeverCalls(start, v.cache, mods[0], s, MAX_INSTRUCTIONS, k, id);
      ModulesNeverCall(RunModule(v, mods[0], s), mods[1..], s, k, id);
    }
  }

  /** No instruction drives a TONR or TOFR: in any program they stay as they are at power-on. */
  lemma {:induction false} RetentiveIdle(v: Snapshot, mods: seq<ModuleInfo>, s: Setting, cycleMs: nat, n: nat, k: Kind, id: nat)
    requires AllFit(v.m, mods) && id < MAX_TIMERS && (k == TONR || k == TOFR) && v.m.rows.Row(k)[id] == IDLE
    ensures var r := Cycles.Cycles(v, mods, s, cycleMs, n).m; r.Valid() && r.rows.Row(k)[id] == IDLE
    decreases n
  {
    hide Cycle, ModulesHistory, Update;
    if n > 0 && !v.m.stop {
      ModulesNeverCall(v, mods, s, k, id);
      CycleTraced([], v, mods, s, cycleMs, k, id);
      RetentiveIdle(Cycle(v, mods, s, cycleMs), mods, s, cycleMs, n - 1, k, id);
    }
  }

  // ------------------------------------------------------------------
  // Timers left alone
  // ------------------------------------------------------------------

  /** No instruction of the next `n` cycles drives the timer. */
  predicate LeftAlone(tr: Trace, v: Snapshot, mods: seq<ModuleInfo>, s: Setting, cycleMs: nat, n: nat, k: Kind, id: nat)
    requires AllFit(v.m, mods) && id < MAX_TIMERS
    decreases n
  {
    n == 0 || v.m.stop ||
    (ModulesHistory(tr, v, mods, s, k, id) == tr &&
     LeftAlone(CycleHistory(tr, v, mods, s, cycleMs, k, id), Cycle(v, mods, s, cycleMs), mods, s, cycleMs, n - 1, k, id))
  }

  /** When the next `n` cycles end. */
  function EndTimes(v: Snapshot, mods: seq<ModuleInfo>, s: Setting, cycleMs: nat, n: nat): (times: seq<nat>)
    requires AllFit(v.m, mods)
    ensures |times| <= n && (times == [] <==> n == 0 || v.m.stop)
    decreases n
  {
    if n == 0 || v.m.stop then []
    else var next := Cycle(v, mods, s, cycleMs); [next.m.timeMs] + EndTimes(next, mods, s, cycleMs, n - 1)
  }

  /** One sample for each cycle end. */
  function Passes(tr: Trace, times: seq<nat>): Trace
    decreases |times|
  {
    if times == [] then tr else Passes(PassHistory(tr, times[0]), times[1..])
  }

  /** A timer left alone goes through one sample for each cycle end and nothing else. */
  lemma {:induction false} AloneTraced(tr: Trace, v: Snapshot, mods: seq<ModuleInfo>, s: Setting, cycleMs: nat, n: nat, k: Kind, id: nat)
    requires AllFit(v.m, mods) && id < MAX_TIMERS && v.m.rows.Row(k)[id] == TimerTraces.Run(k, tr)
    requires LeftAlone(tr, v, mods, s, cycleMs, n, k, id)
    ensures var r := Cycles.Cycles(v, mods, s, cycleMs, n).m;
            r.Valid() && r.rows.Row(k)[id] == TimerTraces.Run(k, Passes(tr, EndTimes(v, mods, s, cycleMs, n)))
    decreases n
  {
    hide Cycle, ModulesHistory, PassHistory, TimerTraces.Run;
    if n > 0 && !v.m.stop {
      var next := Cycle(v, mods, s, cycleMs);
      CycleTraced(tr, v, mods, s, cycleMs, k, id);
      AloneTraced(PassHistory(tr, next.m.timeMs), next, mods, s, cycleMs, n - 1, k, id);
    }
  }

  /** A sample repeated at the given times. */
  function Repeats(last: Sample, times: seq<nat>): Trace {
    seq(|times|, i requires 0 <= i < |times| => Sample(last.input, last.preset, times[i]))
  }

  lemma {:induction false} PassesAppend(tr: Trace, times: seq<nat>)
    requires tr != []
    ensures Passes(tr, times) == tr + Repeats(tr[|tr| - 1], times)
    decreases |times|
  {
    var last := tr[|tr| - 1];
    if times == [] {
      assert Repeats(last, times) == [];
    } else {
      var next := Sample(last.input, last.preset, times[0]);
      var first := tr + [next];
      assert first == PassHistory(tr, times[0]);
      PassesAppend(first, times[1..]);
      RepeatsStep(last, times);
      hide Passes, Repeats;
      assert tr + [next] + Repeats(next, times[1..]) == tr + ([next] + Repeats(next, times[1..]));
    }
  }

  lemma RepeatsStep(last: Sample, times: seq<nat>)
    requires times != []
    ensures var next := Sample(last.input, last.preset, times[0]); Repeats(last, times) == [next] + Repeats(next, times[1..])
  {
  }

  lemma PassesAre(tr: Trace, times: seq<nat>)
    requires tr != []
    ensures var h, last := Passes(tr, times), tr[|tr| - 1];
            && |h| == |tr| + |times| && h[..|tr|] == tr
            && forall i :: 0 <= i < |times| ==> h[|tr| + i] == Sample(last.input, last.preset, times[i])
  {
    hide Passes;
    PassesAppend(tr, times);
    var h, r := Passes(tr, times), Repeats(tr[|tr| - 1], times);
    forall i | 0 <= i < |times|
      ensures h[|tr| + i] == r[i]
    {
    }
  }

  lemma {:induction false} SamePrefixStart(tr: Trace, h: Trace, n: nat)
    requires n < |tr| <= |h| && h[..|tr|] == tr
    ensures RunStart(h, n) == RunStart(tr, n)
  {
    assert forall i :: 0 <= i <= n ==> h[i] == h[..|tr|][i] == tr[i];
    if n > 0 && tr[n - 1].input == tr[n].input {
      SamePrefixStart(tr, h, n - 1);
    }
  }

  /** A timer whose input was on when it was last driven, and is left alone: its output is on once a cycle
      has ended with the preset passed and no borrow, and in every later cycle. */
  lemma TonComesOn(tr: Trace, v: Snapshot, mods: seq<ModuleInfo>, s: Setting, cycleMs: nat, n: nat, id: nat, i: nat)
    requires AllFit(v.m, mods) && id < MAX_TIMERS && v.m.rows.ton[id] == TimerTraces.Run(TON, tr)
    requires tr != [] && PositivePresets(tr) && tr[|tr| - 1].input && LeftAlone(tr, v, mods, s, cycleMs, n, TON, id)
    requires i < |EndTimes(v, mods, s, cycleMs, n)|
    requires var start, end := tr[RunStart(tr, |tr| - 1)].now, EndTimes(v, mods, s, cycleMs, n)[i];
             start <= end < start + U32 && end - start >= tr[|tr| - 1].preset && !Borrows(start, end)
    ensures var r := Cycles.Cycles(v, mods, s, cycleMs, n).m; r.Valid() && r.rows.ton[id].output
  {
    hide Cycle, LeftAlone, Passes, EndTimes, TimerTraces.Run, RunStart, FirstDue, Borrows;
    AloneTraced(tr, v, mods, s, cycleMs, n, TON, id);
    PassesFire(tr, EndTimes(v, mods, s, cycleMs, n), i);
  }

  lemma PassedInputs(tr: Trace, times: seq<nat>)
    requires tr != [] && PositivePresets(tr)
    ensures var h := Passes(tr, times);
            PositivePresets(h) && |tr| <= |h| && forall j :: |tr| - 1 <= j < |h| ==> h[j].input == tr[|tr| - 1].input
  {
    hide Passes;
    PassesAre(tr, times);
    var h := Passes(tr, times);
    forall j | 0 <= j < |h|
      ensures h[j].preset > 0 && (j >= |tr| - 1 ==> h[j].input == tr[|tr| - 1].input)
    {
      if j < |tr| {
        assert h[j] == h[..|tr|][j];
      } else {
        assert h[|tr| + (j - |tr|)] == Sample(tr[|tr| - 1].input, tr[|tr| - 1].preset, times[j - |tr|]);
      }
    }
  }

  /** The run of the last input goes on through the passes. */
  lemma PassedStart(tr: Trace, h: Trace)
    requires tr != [] && |tr| <= |h| && RunStart(h, |tr| - 1) == RunStart(tr, |tr| - 1)
    requires forall j :: |tr| - 1 <= j < |h| ==> h[j].input == tr[|tr| - 1].input
    ensures RunStart(h, |h| - 1) == RunStart(tr, |tr| - 1)
  {
    RunStartOn(h, |tr| - 1, |h| - 1);
  }

  lemma {:induction false} RunStartOn(h: Trace, m: nat, n: nat)
    requires m <= n < |h| && forall j :: m <= j <= n ==> h[j].input == h[m].input
    ensures RunStart(h, n) == RunStart(h, m)
  {
    if m < n {
      RunStartOn(h, m, n - 1);
    }
  }

  lemma PassesFire(tr: Trace, times: seq<nat>, i: nat)
    requires tr != [] && PositivePresets(tr) && tr[|tr| - 1].input && i < |times|
    requires var start, end := tr[RunStart(tr, |tr| - 1)].now, times[i];
             start <= end < start + U32 && end - start >= tr[|tr| - 1].preset && !Borrows(start, end)
    ensures TimerTraces.Run(TON, Passes(tr, times)).output
  {
    var h, r := Passes(tr, times), RunStart(tr, |tr| - 1);
    hide Passes, TimerTraces.Run, RunStart, FirstDue, Borrows, Diff;
    PassesAre(tr, times);
    SamePrefixStart(tr, h, |tr| - 1);
    PassedInputs(tr, times);
    PassedStart(tr, h);
    DiffTrue(tr[r].now, times[i]);
    assert h[|tr| + i].now == times[i] && h[r] == h[..|tr|][r];
    assert Due(h, r, |tr| + i);
    TonTrace(h);
  }
}
