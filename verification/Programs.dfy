/** A small program from its text to its result: assembled, loaded and run for any number of cycles. */
module Programs {
  import opened Words
  import opened Encoding
  import opened OpTable
  import opened Assembler
  import opened AssemblerLaws
  import opened AssembleFile
  import opened VmStrings
  import opened Machine
  import opened Loader
  import opened Pipeline
  import opened Runtime
  import opened RuntimeLaws
  import opened Cycles
  import opened Handlers
  import opened VmRuntime
  import opened Startup
  import Instructions
  import ModuleRuns
  import WrittenLines
  import Num = WordNumbers

  /** The word of ADD R1, R1, #1. */
  const ADD_ONE: bv32 := Pack(0, 1, 1, true, 1)

  const LINE: string := "ADD R1, R1, #1"

  /** The program: that line, `n` times. */
  function Source(n: nat): string {
    if n == 0 then "" else LINE + "\n" + Source(n - 1)
  }

  function Repeated(n: nat): (words: seq<bv32>)
    ensures |words| == n && forall i :: 0 <= i < n ==> words[i] == ADD_ONE
  {
    seq(n, i => ADD_ONE)
  }

  // ------------------------------------------------------------------
  // From text to bytes
  // ------------------------------------------------------------------

  lemma OneDigit()
    ensures SignedDec(1) == "1" && Int8(1) == 1
  {
    assert Dec(1) == "1";
  }

  lemma LineSpelled()
    ensures WrittenLines.Text("ADD", " ", WrittenLines.RegText('R', 1), ", ", WrittenLines.RegText('R', 1), ", ", "#" + SignedDec(1)) == LINE
  {
    OneDigit();
    hide SignedDec;
    assert WrittenLines.RegText('R', 1) == "R1";
  }

  lemma AddName()
    ensures SameName(TableName(0), "ADD") && AllowsImm(0)
  {
    CapitalsSame(PrintName(0), TableName(0));
    Instructions.SumNames();
    hide TableName, PrintName, SameName;
  }

  lemma LineWord(rawHalt: bool)
    ensures AssembleLine(LINE, rawHalt) == Word(ADD_ONE)
  {
    hide AssembleLine, Pack, WrittenLines.Text, WrittenLines.RegText, SignedDec, TableName, SameName;
    hide WrittenLines.Meaning, AllowsImm;
    AddName();
    LineSpelled();
    OneDigit();
    WrittenLines.WrittenLine(0, "ADD", " ", 'R', 1, ", ", 1, ", ", WrittenLines.Immediate(1), rawHalt);
    WrittenLines.InRange(0, 1, 1, 1);
  }

  lemma LinePlain()
    ensures LINE != [] && !IsSpace(LINE[0]) && LINE[0] != ';' && AssemblerLaws.Plain(LINE) && |LINE| < MAX_LINE - 1 && '\n' !in LINE
  {
  }

  /** The text assembles to the word, `n` times. */
  lemma {:induction false} SourceAssembles(n: nat, rawHalt: bool, line: nat)
    ensures Assemble(Source(n), rawHalt, line) == Outcome(Flat(Repeated(n)), None)
    decreases n
  {
    hide AssembleLine, LittleEndian, Before, LineLength, AssemblerLaws.Plain, IsSpace;
    if n > 0 {
      var text, rest := Source(n), Source(n - 1);
      LinePlain();
      LineLengthOf(LINE, rest, MAX_LINE - 1);
      LineEnd(LINE, rawHalt);
      LineWord(rawHalt);
      assert text[..|LINE| + 1] == LINE + "\n" && text[|LINE| + 1..] == rest;
      SourceAssembles(n - 1, rawHalt, line + 1);
      assert Repeated(n)[0] == ADD_ONE && Repeated(n)[1..] == Repeated(n - 1);
    } else {
      assert Repeated(0) == [];
    }
  }

  // ------------------------------------------------------------------
  // One instruction
  // ------------------------------------------------------------------

  lemma AddWord()
    ensures Opcode(ADD_ONE) as nat == 0 && ADD_ONE != 0
  {
    FieldsOfPack(0, 1, 1, true, 1);
  }

  lemma AddExec(m: Machine, env: Env)
    requires m.Valid()
    ensures var n := (Num.Number(m.reg[1]) + 1) % U32; Exec(0, ADD_ONE, m, env) == m.(reg := m.reg[1 := Num.Word(n)])
  {
    hide Exec, Pack, Num.Number, Num.Word, OpFrom, Int8;
    Instructions.Named(0);
    Instructions.SumNames();
    Instructions.Sums(Instructions.Operands(1, 1, true, 1), m, env);
    OneDigit();
  }

  /** ADD R1, R1, #1 adds one to register 1 and moves on. */
  lemma AddStep(m: Machine, s: Setting)
    requires m.Valid() && m.pc + 4 < U32
    ensures var r := Dispatch(0, ADD_ONE, m, s);
            && r.Valid() && r.mem == m.mem && r.pc == m.pc + 4 && r.running == m.running && r.stop == m.stop
            && r.executed == m.executed + 1 && Num.Number(r.reg[1]) == (Num.Number(m.reg[1]) + 1) % U32
  {
    hide Exec, Pack, Num.Number, Num.Word;
    AddExec(m, s.env);
    Num.NumberWord((Num.Number(m.reg[1]) + 1) % U32);
    DispatchValid(0, ADD_ONE, m, s);
  }

  // ------------------------------------------------------------------
  // Runs
  // ------------------------------------------------------------------

  /** The module holds the program. */
  predicate Holds(m: Machine, mod: ModuleInfo, n: nat) {
    Fits(m, mod) && mod.size == 4 * n && forall i :: 0 <= i < n ==> WordAt(m.mem, mod.addr + 4 * i) == ADD_ONE
  }

  /** What is cached of it is right. */
  predicate Cached(cache: Cache, mod: ModuleInfo, n: nat) {
    forall i :: 0 <= i < n && mod.addr + 4 * i in cache ==> cache[mod.addr + 4 * i] == Decode(ADD_ONE)
  }

  /** A machine some additions later. */
  predicate Later(m: Machine, r: Machine, c: nat) {
    && m.Valid() && r.Valid() && r.mem == m.mem && r.stop == m.stop && r.executed == m.executed + c
    && Num.Number(r.reg[1]) == (Num.Number(m.reg[1]) + c) % U32
  }

  lemma AddMany(x: int, c: nat)
    ensures ((x + 1) % U32 + c) % U32 == (x + (c + 1)) % U32
  {
  }

  lemma StepLater(m: Machine, next: Machine, r: Machine, c: nat)
    requires m.Valid() && Later(next, r, c) && next.mem == m.mem && next.stop == m.stop && next.executed == m.executed + 1
    requires Num.Number(next.reg[1]) == (Num.Number(m.reg[1]) + 1) % U32
    ensures Later(m, r, c + 1)
  {
    hide Num.Number;
    AddMany(Num.Number(m.reg[1]), c);
  }

  lemma LaterStart(m: Machine)
    requires m.Valid()
    ensures Later(m, m.(running := false), 0) && Later(m, m, 0)
  {
    hide Num.Number;
    Num.NumberBound(m.reg[1]);
  }

  lemma Fetched(m: Machine, mod: ModuleInfo, n: nat, i: nat)
    requires Holds(m, mod, n) && i <= n && m.pc == mod.addr + 4 * i
    ensures FetchAt(m, mod) == if i < n then Run(ADD_ONE) else Leave
  {
    AddWord();
    hide WordAt, Opcode, Pack;
  }

  lemma LookedUp(m: Machine, cache: Cache, mod: ModuleInfo, n: nat, i: nat)
    requires Holds(m, mod, n) && Cached(cache, mod, n) && i < n && m.pc == mod.addr + 4 * i
    ensures Lookup(m, cache) == Decode(ADD_ONE) && Cached(cache[m.pc := Decode(ADD_ONE)], mod, n)
  {
    hide WordAt, Decode, Pack;
    assert WordAt(m.mem, mod.addr + 4 * i) == ADD_ONE;
  }

  /** From the `i`-th instruction on, at most `k` instructions. */
  lemma {:induction false} RunAdds(m: Machine, cache: Cache, mod: ModuleInfo, s: Setting, n: nat, i: nat, k: nat)
    requires Holds(m, mod, n) && Cached(cache, mod, n) && i <= n && m.pc == mod.addr + 4 * i && m.running
    ensures var r := CachedRun(m, cache, mod, s, k); Later(m, r.m, Min(k, n - i)) && Cached(r.cache, mod, n)
    decreases k
  {
    hide Dispatch, Decode, WordAt, Opcode, Num.Number, Lookup, Cached, FetchAt, Pack, Later;
    LaterStart(m);
    Fetched(m, mod, n, i);
    if k > 0 && i < n {
      LookedUp(m, cache, mod, n, i);
      AddWord();
      DecodeRaw(ADD_ONE);
      AddStep(m, s);
      var next := Dispatch(0, ADD_ONE, m, s);
      RunAdds(next, cache[m.pc := Decode(ADD_ONE)], mod, s, n, i + 1, k - 1);
      StepLater(m, next, CachedRun(m, cache, mod, s, k).m, Min(k - 1, n - (i + 1)));
    }
  }

  /** One module run: the whole program, or 100000 instructions of it. */
  lemma ModuleAdds(v: Snapshot, mod: ModuleInfo, s: Setting, n: nat)
    requires Holds(v.m, mod, n) && Cached(v.cache, mod, n)
    ensures var r := RunModule(v, mod, s); Later(v.m, r.m, Min(n, 100000)) && Cached(r.cache, mod, n)
  {
    hide CachedRun, WordAt, Cached, Num.Number;
    RunAdds(v.m.(running := true, pc := mod.addr), v.cache, mod, s, n, 0, MAX_INSTRUCTIONS);
  }

  lemma EndKeeps(m: Machine, r: Machine, planned: nat, c: nat)
    requires Later(m, r, c)
    ensures Later(m, EndCycle(r, planned), c)
  {
    hide Num.Number, Rows.Pass;
  }

  lemma HoldsLater(m: Machine, r: Machine, mod: ModuleInfo, n: nat, c: nat)
    requires Holds(m, mod, n) && Later(m, r, c)
    ensures Holds(r, mod, n)
  {
    hide WordAt, Num.Number;
  }

  lemma CycleAdds(v: Snapshot, mod: ModuleInfo, s: Setting, cycleMs: nat, n: nat)
    requires Holds(v.m, mod, n) && Cached(v.cache, mod, n)
    ensures AllFit(v.m, [mod])
    ensures var r := Cycle(v, [mod], s, cycleMs);
            Later(v.m, r.m, Min(n, 100000)) && Holds(r.m, mod, n) && Cached(r.cache, mod, n)
  {
    hide RunModule, WordAt, Cached, Later, EndCycle;
    ModuleAdds(v, mod, s, n);
    ModuleRuns.FirstModule(v, [mod], s);
    assert [mod][1..] == [];
    var after := RunModule(v, mod, s);
    EndKeeps(v.m, after.m, v.m.timeMs + cycleMs, Min(n, 100000));
    HoldsLater(v.m, Cycle(v, [mod], s, cycleMs).m, mod, n, Min(n, 100000));
  }

  lemma AddCycles(x: int, c: nat, k: nat)
    requires k > 0
    ensures ((x + c) % U32 + (k - 1) * c) % U32 == (x + k * c) % U32
  {
    assert k * c == (k - 1) * c + c;
    var y := (k - 1) * c;
    assert x + c + y == (x + c) % U32 + y + (x + c) / U32 * U32;
    Num.Multiples((x + c) % U32 + y, (x + c) / U32);
  }

  /** Any number of cycles. */
  lemma {:induction false} CyclesAdd(v: Snapshot, mod: ModuleInfo, s: Setting, cycleMs: nat, n: nat, k: nat)
    requires Holds(v.m, mod, n) && Cached(v.cache, mod, n) && !v.m.stop
    ensures AllFit(v.m, [mod]) && Later(v.m, Cycles.Cycles(v, [mod], s, cycleMs, k).m, k * Min(n, 100000))
    decreases k
  {
    hide Cycle, WordAt, Cached, Num.Number, Holds;
    CycleAdds(v, mod, s, cycleMs, n);
    var c := Min(n, 100000);
    if k == 0 {
      LaterNow(v.m);
    } else {
      var next := Cycle(v, [mod], s, cycleMs);
      CyclesAdd(next, mod, s, cycleMs, n, k - 1);
      var r := Cycles.Cycles(next, [mod], s, cycleMs, k - 1).m;
      AddCycles(Num.Number(v.m.reg[1]), c, k);
      assert k * c == (k - 1) * c + c;
    }
  }

  lemma Reduced(x: nat)
    requires x < U32
    ensures x % U32 == x
  {
  }

  lemma LaterNow(m: Machine)
    requires m.Valid()
    ensures Later(m, m, 0)
  {
    hide Num.Number;
    Num.NumberBound(m.reg[1]);
    Reduced(Num.Number(m.reg[1]));
  }

  // ------------------------------------------------------------------
  // From power-on
  // ------------------------------------------------------------------

  function ProgramFile(n: nat): (f: Loader.File)
    ensures f.File? && f.data == Flat(Repeated(n)) && Readable(f)
  {
    Loader.File("count", 4 * n, Flat(Repeated(n)))
  }

  lemma FileLoads(n: nat, start: nat, bytes: nat)
    requires start + 4 * n <= bytes
    ensures var f := ProgramFile(n);
            && Loadable([f], start, bytes) && Image([f]) == Flat(Repeated(n)) && Layout([f], start) == [ModuleInfo("count", start, 4 * n)]
            && Written([f], start, bytes) == Flat(Repeated(n))
  {
    hide Flat;
    var f := ProgramFile(n);
    assert [f][1..] == [];
    PlacedAll([f], start, bytes);
    hide Written, Placed;
  }

  lemma WrittenIn(m: Bytes, a: nat, data: Bytes)
    requires data != [] && a + |data| <= |m|
    ensures Write(m, a, data)[a..a + |data|] == data
  {
  }

  lemma LoadedHolds(n: nat, start: nat, bytes: nat, now: nat)
    requires start + 4 * n + 3 <= bytes <= VM_MEM_BYTES
    ensures Holds(Booted(bytes, [ProgramFile(n)], start, now), ModuleInfo("count", start, 4 * n), n)
  {
    hide Flat, Written, Write, WordAt;
    FileLoads(n, start, bytes);
    var m := Booted(bytes, [ProgramFile(n)], start, now);
    if n > 0 {
      WrittenIn(Created(bytes).mem, start, Flat(Repeated(n)));
      forall i | 0 <= i < n
        ensures WordAt(m.mem, start + 4 * i) == ADD_ONE
      {
        FetchBack(m.mem, start, Repeated(n), i);
      }
    }
  }

  lemma StartsAtZero(bytes: nat, files: seq<Loader.File>, start: nat, now: nat)
    requires bytes <= VM_MEM_BYTES
    ensures var m := Booted(bytes, files, start, now); Num.Number(m.reg[1]) == 0 && m.executed == 0 && !m.stop
  {
  }

  /** The counting program from power-on: register 1 and the instruction count after `k` cycles. */
  lemma CountingRuns(n: nat, start: nat, bytes: nat, now: nat, s: Setting, cycleMs: nat, k: nat)
    requires start + 4 * n + 3 <= bytes <= VM_MEM_BYTES
    ensures start + |Image([ProgramFile(n)])| + 3 <= bytes
    ensures var r := Ran(bytes, [ProgramFile(n)], start, now, s, cycleMs, k).m;
            r.Valid() && Num.Number(r.reg[1]) == k * Min(n, 100000) % U32 && r.executed == k * Min(n, 100000)
  {
    hide Holds, Image, Layout, Flat, Num.Number, Booted, Cycles.Cycles;
    FileLoads(n, start, bytes);
    LoadedHolds(n, start, bytes, now);
    StartsAtZero(bytes, [ProgramFile(n)], start, now);
    var m := Booted(bytes, [ProgramFile(n)], start, now);
    CyclesAdd(Snapshot(m, map[]), ModuleInfo("count", start, 4 * n), s, cycleMs, n, k);
  }

  /** From the text of `n` lines ADD R1, R1, #1 to register 1: assemble, load, run `k` cycles on the struct
      with its hash table, timers and arrays. Each cycle adds `n`, or 100000 when there are more lines. */
  method Count(n: nat, start: nat, bytes: nat, now: nat, s: Setting, cycleMs: nat, k: nat, rawHalt: bool)
    returns (vm: Vm, ok: bool)
    requires start + 4 * n + 3 <= bytes <= VM_MEM_BYTES
    ensures ok && vm.Shaped() && Num.Number(vm.reg[1]) == k * Min(n, 100000) % U32 && vm.executed == k * Min(n, 100000)
  {
    hide Assemble, Source, Flat, Image, Loadable, Ran, Num.Number, Booted, Vm.Shaped;
    var out, failure := AssembleText(Source(n), rawHalt);
    SourceAssembles(n, rawHalt, 0);
    var f := Loader.File("count", |out|, out);
    assert f == ProgramFile(n);
    FileLoads(n, start, bytes);
    vm, ok := Boot(bytes, start, [f], now, s, cycleMs, k);
    CountingRuns(n, start, bytes, now, s, cycleMs, k);
    vm.Parts();
  }
}
