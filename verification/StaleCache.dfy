/** A program that patches its own first instruction: the cached loop goes on executing the old one. */
module StaleCache {
  import opened Words
  import opened Encoding
  import opened OpTable
  import opened Timers
  import opened VmStrings
  import opened Machine
  import opened Loader
  import opened Runtime
  import opened RuntimeLaws

  /** add R1, R0, #c */
  function AddWord(c: bv8): bv32 { Pack(0, 1, 0, true, c) }

  /** demux R2, R3, #0: stores R2 at the address in R3 */
  function StoreWord(): bv32 { Pack(61, 2, 3, true, 0) }

  /** jmp #0 */
  function JumpWord(): bv32 { Pack(62, 0, 0, true, 0) }

  const CODE := ModuleInfo("patch", 0, 12)

  /** The three instructions at address 0; R2 holds another addition, R3 the address of the first. */
  predicate Patching(m: Machine) {
    && m.Valid() && m.running && m.pc == 0 && |m.mem| >= 16
    && WordAt(m.mem, 0) == AddWord(1) && WordAt(m.mem, 4) == StoreWord() && WordAt(m.mem, 8) == JumpWord()
    && m.reg[0] == 0 && m.reg[2] == AddWord(2) && m.reg[3] == 0
  }

  function Program(): Bytes {
    LittleEndian(AddWord(1)) + LittleEndian(StoreWord()) + LittleEndian(JumpWord()) + [0, 0, 0, 0]
  }

  function Registers(): seq<bv32> {
    seq(REG_COUNT, i => if i == 2 then AddWord(2) else 0)
  }

  /** A freshly started VM with the program in memory. */
  function Fresh(): (m: Machine)
    ensures Fits(m, CODE)
  {
    Created(16).(reg := Registers(), mem := Program())
  }

  lemma WordIn(m: Bytes, a: nat, w: bv32)
    requires a + 4 <= |m| && m[a..a + 4] == LittleEndian(w)
    ensures WordAt(m, a) == w
  {
    WordOfBytes(w);
    hide WordOf;
    assert m[a] == m[a..a + 4][0] && m[a + 1] == m[a..a + 4][1] && m[a + 2] == m[a..a + 4][2] && m[a + 3] == m[a..a + 4][3];
  }

  lemma WordPut(m: Bytes, a: nat, w: bv32)
    requires a + 4 <= |m|
    ensures WordAt(PutWord(m, a, w), a) == w
  {
    hide LittleEndian, WordAt, Write;
    assert PutWord(m, a, w)[a..a + 4] == LittleEndian(w);
    WordIn(PutWord(m, a, w), a, w);
  }

  lemma WordKept(m: Bytes, w: bv32, a: nat)
    requires 4 <= a && a + 4 <= |m|
    ensures WordAt(PutWord(m, 0, w), a) == WordAt(m, a)
  {
    hide LittleEndian, WordOf;
  }

  lemma FreshIsPatching()
    ensures Patching(Fresh())
  {
    hide WordAt, LittleEndian, Pack;
    var p := Program();
    assert p[0..4] == LittleEndian(AddWord(1)) && p[4..8] == LittleEndian(StoreWord()) && p[8..12] == LittleEndian(JumpWord());
    WordIn(p, 0, AddWord(1));
    WordIn(p, 4, StoreWord());
    WordIn(p, 8, JumpWord());
  }

  lemma AddFields(c: bv8)
    ensures var w := AddWord(c); Opcode(w) as nat == 0 && RegA(w) == 1 && RegB(w) == 0 && HasImm(w) && FieldC(w) == c && w != 0
  {
    FieldsOfPack(0, 1, 0, true, c);
  }

  lemma StoreFields()
    ensures var w := StoreWord(); Opcode(w) as nat == 61 && RegA(w) == 2 && RegB(w) == 3 && HasImm(w) && FieldC(w) == 0 && w != 0
  {
    FieldsOfPack(61, 2, 3, true, 0);
  }

  lemma JumpFields()
    ensures var w := JumpWord(); Opcode(w) as nat == 62 && HasImm(w) && FieldC(w) == 0 && w != 0
  {
    FieldsOfPack(62, 0, 0, true, 0);
  }

  /** What `Dispatch` adds to the handler. */
  lemma Advance(op: nat, w: bv32, m: Machine, s: Setting)
    requires m.Valid() && op < OPCODES && m.pc + 4 < U32
    ensures var r, e := Dispatch(op, w, m, s), Exec(op, w, m, s.env);
            r.Valid() && r.mem == e.mem && r.reg == e.reg && r.running == e.running && r.pc == if e.pc == m.pc then m.pc + 4 else e.pc
  {
    hide Exec;
    DispatchValid(op, w, m, s);
  }

  lemma AddOperand(c: bv8, reg: seq<bv32>)
    requires |reg| == REG_COUNT && c < 0x80
    ensures CValue(AddWord(c), reg) == c as bv32
  {
    AddFields(c);
    ExtendedLow(c);
    hide AddWord, SignExtend, RegC, HasImm, FieldC, Opcode;
  }

  lemma ExecAdd(w: bv32, m: Machine, env: Env)
    requires m.Valid() && RegA(w) == 1 && RegB(w) == 0
    ensures Exec(0, w, m, env) == m.(reg := m.reg[1 := Alu(0, m.reg[0], CValue(w, m.reg))])
  {
    hide CValue, RegA, RegB, Alu;
  }

  function Sum(x: bv32, c: bv8): bv32 { x + (c as bv32) }

  lemma SumIs(x: bv32, c: bv8)
    ensures Alu(0, x, c as bv32) == Sum(x, c)
    ensures Sum(0, 1) == 1 && Sum(0, 2) == 2
  {
  }

  lemma AddValue(x: bv32, c: bv8, reg: seq<bv32>)
    requires |reg| == REG_COUNT && c < 0x80
    ensures Alu(0, x, CValue(AddWord(c), reg)) == Sum(x, c)
  {
    hide CValue, AddWord, Alu, Sum;
    AddOperand(c, reg);
    SumIs(x, c);
  }

  lemma ExecStore(w: bv32, m: Machine, env: Env)
    requires m.Valid() && RegA(w) == 2 && RegB(w) == 3 && HasImm(w) && FieldC(w) == 0 && m.reg[3] == 0 && |m.mem| >= 4
    ensures Exec(61, w, m, env) == m.(mem := PutWord(m.mem, 0, m.reg[2]))
  {
    hide RegA, RegB, RegC, HasImm, FieldC, PutWord;
  }

  lemma ExecJump(w: bv32, m: Machine, env: Env)
    requires m.Valid() && HasImm(w) && FieldC(w) == 0
    ensures Exec(62, w, m, env) == m.(pc := 0)
  {
    hide RegB, RegC, HasImm, FieldC;
  }

  lemma AddStep(m: Machine, s: Setting, c: bv8)
    requires m.Valid() && c < 0x80 && m.pc + 4 < U32
    ensures var r := Dispatch(0, AddWord(c), m, s);
            r.Valid() && r.mem == m.mem && r.pc == m.pc + 4 && r.running == m.running &&
            r.reg == m.reg[1 := Sum(m.reg[0], c)]
  {
    hide Exec, Dispatch, RegA, RegB, HasImm, FieldC, Opcode, AddWord, CValue, Alu;
    AddFields(c);
    Advance(0, AddWord(c), m, s);
    ExecAdd(AddWord(c), m, s.env);
    AddValue(m.reg[0], c, m.reg);
  }

  lemma StoreStep(m: Machine, s: Setting)
    requires m.Valid() && m.pc + 4 < U32 && m.reg[3] == 0 && |m.mem| >= 4
    ensures var r := Dispatch(61, StoreWord(), m, s);
            r.Valid() && r.mem == PutWord(m.mem, 0, m.reg[2]) && r.pc == m.pc + 4 && r.running == m.running && r.reg == m.reg
  {
    hide Exec, Dispatch, RegA, RegB, HasImm, FieldC, Opcode, StoreWord, PutWord;
    StoreFields();
    Advance(61, StoreWord(), m, s);
    ExecStore(StoreWord(), m, s.env);
  }

  lemma JumpStep(m: Machine, s: Setting)
    requires m.Valid() && m.pc != 0 && m.pc + 4 < U32
    ensures var r := Dispatch(62, JumpWord(), m, s);
            r.Valid() && r.mem == m.mem && r.pc == 0 && r.running == m.running && r.reg == m.reg
  {
    hide Exec, Dispatch, HasImm, FieldC, Opcode, JumpWord;
    JumpFields();
    Advance(62, JumpWord(), m, s);
    ExecJump(JumpWord(), m, s.env);
  }

  /** The machine at a word of the program. */
  predicate At(m: Machine, pc: nat, w: bv32) {
    Fits(m, CODE) && m.running && m.pc == pc < 12 && WordAt(m.mem, pc) == w && w != 0 && Opcode(w) as nat < OPCODES
  }

  /** The machines before the first four instructions. */
  lemma Trail(m: Machine, s: Setting) returns (m1: Machine, m2: Machine, m3: Machine)
    requires Patching(m)
    ensures At(m, 0, AddWord(1)) && m1 == Dispatch(Opcode(AddWord(1)) as nat, AddWord(1), m, s)
    ensures At(m1, 4, StoreWord()) && m2 == Dispatch(Opcode(StoreWord()) as nat, StoreWord(), m1, s)
    ensures At(m2, 8, JumpWord()) && m3 == Dispatch(Opcode(JumpWord()) as nat, JumpWord(), m2, s)
    ensures Fits(m3, CODE) && m3.running && m3.pc == 0 && m3.reg[0] == 0 && WordAt(m3.mem, 0) == AddWord(2)
  {
    hide Dispatch, Pack, Sum, Opcode, RegA, RegB, HasImm, FieldC, WordAt, PutWord, Decode, AddWord, StoreWord, JumpWord;
    AddFields(1);
    StoreFields();
    JumpFields();
    AddStep(m, s, 1);
    m1 := Dispatch(0, AddWord(1), m, s);
    StoreStep(m1, s);
    WordPut(m1.mem, 0, AddWord(2));
    WordKept(m1.mem, AddWord(2), 8);
    m2 := Dispatch(61, StoreWord(), m1, s);
    JumpStep(m2, s);
    m3 := Dispatch(62, JumpWord(), m2, s);
  }

  /** The first three instructions are executed alike with and without the cache. */
  lemma FirstThree(m: Machine, s: Setting) returns (r: Machine, cache: Cache)
    requires Patching(m)
    ensures Fits(m, CODE) && Fits(r, CODE) && r.running && r.pc == 0 && r.reg[0] == 0
    ensures WordAt(r.mem, 0) == AddWord(2) && 0 in cache && cache[0] == Decode(AddWord(1))
    ensures CachedRun(m, map[], CODE, s, 4) == (var x := CachedRun(r, cache, CODE, s, 1); Cached(x.m, x.cache, [AddWord(1), StoreWord(), JumpWord()] + x.words))
    ensures PlainRun(m, CODE, s, 4) == (var y := PlainRun(r, CODE, s, 1); Plain(y.m, [AddWord(1), StoreWord(), JumpWord()] + y.words))
  {
    hide Patching, Dispatch, Opcode, WordAt, Decode, AddWord, StoreWord, JumpWord, CachedRun, PlainRun;
    var m1, m2;
    m1, m2, r := Trail(m, s);
    var c1: Cache := map[0 := Decode(AddWord(1))];
    var c2: Cache := c1[4 := Decode(StoreWord())];
    cache := c2[8 := Decode(JumpWord())];
    CachedStep(m, map[], s, 4, AddWord(1));
    CachedStep(m1, c1, s, 3, StoreWord());
    CachedStep(m2, c2, s, 2, JumpWord());
    PlainStep(m, s, 4, AddWord(1));
    PlainStep(m1, s, 3, StoreWord());
    PlainStep(m2, s, 2, JumpWord());
  }

  lemma CachedStep(m: Machine, cache: Cache, s: Setting, n: nat, w: bv32)
    requires At(m, m.pc, w) && n > 0 && m.pc !in cache
    ensures var next := Dispatch(Opcode(w) as nat, w, m, s);
            Fits(next, CODE) &&
            var rest := CachedRun(next, cache[m.pc := Decode(w)], CODE, s, n - 1);
            CachedRun(m, cache, CODE, s, n) == Cached(rest.m, rest.cache, [w] + rest.words)
  {
    hide Dispatch, Opcode, WordAt, Decode;
    DecodeRaw(w);
    DispatchValid(Opcode(w) as nat, w, m, s);
  }

  lemma PlainStep(m: Machine, s: Setting, n: nat, w: bv32)
    requires At(m, m.pc, w) && n > 0
    ensures var next := Dispatch(Opcode(w) as nat, w, m, s);
            Fits(next, CODE) &&
            var rest := PlainRun(next, CODE, s, n - 1);
            PlainRun(m, CODE, s, n) == Plain(rest.m, [w] + rest.words)
  {
    hide Dispatch, Opcode, WordAt;
    DispatchValid(Opcode(w) as nat, w, m, s);
  }

  /** Four instructions from an empty cache: the interpreter that decodes every word adds 2, the cached
      loop still adds 1. The hypothesis on stores in the refinement theorem is needed. */
  lemma StaleAddition(s: Setting)
    ensures var m := Fresh();
            && Fits(m, CODE) && Coherent(m, map[])
            && var plain, cached := PlainRun(m, CODE, s, 4).m, CachedRun(m, map[], CODE, s, 4).m;
               plain.Valid() && cached.Valid() && plain.reg[1] == 2 && cached.reg[1] == 1
  {
    FreshIsPatching();
    var m := Fresh();
    hide Fresh, Patching, Dispatch, Pack, Sum, Opcode, RegA, RegB, HasImm, FieldC, WordAt, AddWord, StoreWord, JumpWord, Decode;
    PatchingFits(m);
    var r, cache := FirstThree(m, s);
    AddFields(1);
    AddFields(2);
    SumIs(0, 1);
    DecodeRaw(AddWord(1));
    AddStep(r, s, 1);
    AddStep(r, s, 2);
  }

  lemma PatchingFits(m: Machine)
    requires Patching(m)
    ensures Fits(m, CODE)
  {
  }
}
