/** The fetch/decode/execute loop of vm_runtime.c with its cache of decoded instructions (vm_tables.c),
    next to an interpreter that decodes every word afresh. */
module Runtime {
  import opened Words
  import opened Encoding
  import opened OpTable
  import opened Timers
  import opened VmStrings
  import opened Machine
  import opened Loader

  const MAX_INSTRUCTIONS: nat := 100000

  /** `decoded_instr_t`. */
  datatype Decoded = Decoded(raw: bv32, opcode: bv8, ra: bv8, rb: bv8, rc: bv8, hasImm: bool, immediate: bv32)

  function Decode(w: bv32): Decoded {
    Decoded(w, Opcode(w), FieldA(w), FieldB(w), FieldC(w), HasImm(w), if HasImm(w) then w & 0xFF else 0)
  }

  type Cache = map<Uint32, Decoded>

  /** What a run depends on besides the machine: the handlers outside the model and the clock rate. */
  datatype Setting = Setting(env: Env, rate: nat)

  predicate InModule(pc: nat, mod: ModuleInfo) {
    mod.addr <= pc < mod.addr + mod.size
  }

  /** Every fetch inside the module stays inside memory. */
  predicate Fits(m: Machine, mod: ModuleInfo) {
    m.Valid() && mod.addr + mod.size + 3 <= |m.mem|
  }

  /** The handler call, the default advance of the program counter, the counters and the clock. */
  function Dispatch(op: nat, w: bv32, m: Machine, s: Setting): Machine
    requires m.Valid() && op < OPCODES
  {
    var e := Exec(op, w, m, s.env);
    var p := if e.pc == m.pc then e.(pc := (m.pc + 4) % U32) else e;
    Tick(p.(executed := p.executed + 1), s.rate)
  }

  lemma DispatchValid(op: nat, w: bv32, m: Machine, s: Setting)
    requires m.Valid() && op < OPCODES
    ensures var r := Dispatch(op, w, m, s); r.Valid() && |r.mem| == |m.mem| && r.mem == Exec(op, w, m, s.env).mem
  {
    ExecValid(op, w, m, s.env);
    hide Exec;
  }

  /** What the fetch at the program counter leads to. */
  datatype Fetch = Leave | Illegal | Run(w: bv32)

  function FetchAt(m: Machine, mod: ModuleInfo): (f: Fetch)
    requires Fits(m, mod)
    ensures !f.Leave? ==> InModule(m.pc, mod)
    ensures f.Run? ==> f.w == WordAt(m.mem, m.pc) && Opcode(f.w) as nat < OPCODES
  {
    if !InModule(m.pc, mod) then Leave
    else
      var w := WordAt(m.mem, m.pc);
      if w == 0 then Leave else if Opcode(w) as nat >= OPCODES then Illegal else Run(w)
  }

  /** A machine, and the instruction words its handlers were given. */
  datatype Plain = Plain(m: Machine, words: seq<bv32>)

  /** The interpreter without a cache: at most `n` instructions. */
  function PlainRun(m: Machine, mod: ModuleInfo, s: Setting, n: nat): Plain
    requires Fits(m, mod)
    decreases n
  {
    if n == 0 || !m.running then Plain(m, [])
    else match FetchAt(m, mod)
      case Leave => Plain(m, [])
      case Illegal => Plain(m.(running := false), [])
      case Run(w) =>
        DispatchValid(Opcode(w) as nat, w, m, s);
        var rest := PlainRun(Dispatch(Opcode(w) as nat, w, m, s), mod, s, n - 1);
        Plain(rest.m, [w] + rest.words)
  }

  /** `decode_instruction_cached`. */
  function Lookup(m: Machine, cache: Cache): Decoded
    requires m.pc + 4 <= |m.mem|
  {
    if m.pc in cache then cache[m.pc] else Decode(WordAt(m.mem, m.pc))
  }

  datatype Cached = Cached(m: Machine, cache: Cache, words: seq<bv32>)

  /** `vm_run_module` after its first two assignments: the opcode comes from memory, the operands from
      the cached word. */
  function CachedRun(m: Machine, cache: Cache, mod: ModuleInfo, s: Setting, n: nat): Cached
    requires Fits(m, mod)
    decreases n
  {
    if n == 0 || !m.running then Cached(m, cache, [])
    else match FetchAt(m, mod)
      case Leave => Cached(m, cache, [])
      case Illegal => Cached(m.(running := false), cache[m.pc := Lookup(m, cache)], [])
      case Run(w) =>
        var d := Lookup(m, cache);
        DispatchValid(Opcode(w) as nat, d.raw, m, s);
        var rest := CachedRun(Dispatch(Opcode(w) as nat, d.raw, m, s), cache[m.pc := d], mod, s, n - 1);
        Cached(rest.m, rest.cache, [d.raw] + rest.words)
  }
}
