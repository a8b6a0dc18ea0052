/** When the instruction cache is invisible, and what the virtual clock adds up to. */
module RuntimeLaws {
  import opened Words
  import opened Encoding
  import opened OpTable
  import opened Timers
  import opened VmStrings
  import opened Machine
  import opened Loader
  import opened Runtime

  // ------------------------------------------------------------------
  // The cache is invisible exactly when every dispatched word is the one in memory
  // ------------------------------------------------------------------

  /** Along the cached run, every dispatched word is what memory holds at that moment. */
  predicate FreshRun(m: Machine, cache: Cache, mod: ModuleInfo, s: Setting, n: nat)
    requires Fits(m, mod)
    decreases n
  {
    n == 0 || !m.running || !FetchAt(m, mod).Run? ||
    var w, d := FetchAt(m, mod).w, Lookup(m, cache);
    DispatchValid(Opcode(w) as nat, d.raw, m, s);
    d.raw == w && FreshRun(Dispatch(Opcode(w) as nat, d.raw, m, s), cache[m.pc := d], mod, s, n - 1)
  }

  lemma DispatchFits(op: nat, w: bv32, m: Machine, mod: ModuleInfo, s: Setting)
    requires Fits(m, mod) && op < OPCODES
    ensures Fits(Dispatch(op, w, m, s), mod)
  {
    hide Dispatch;
    DispatchValid(op, w, m, s);
  }

  /** A fresh run reaches the same machine as the interpreter that decodes every word, through the same words. */
  lemma {:induction false} FreshIsPlain(m: Machine, cache: Cache, mod: ModuleInfo, s: Setting, n: nat)
    requires Fits(m, mod) && FreshRun(m, cache, mod, s, n)
    ensures CachedRun(m, cache, mod, s, n).m == PlainRun(m, mod, s, n).m
    ensures CachedRun(m, cache, mod, s, n).words == PlainRun(m, mod, s, n).words
    decreases n
  {
    hide Dispatch, Opcode, Decode;
    if n > 0 && m.running && FetchAt(m, mod).Run? {
      var w, d := FetchAt(m, mod).w, Lookup(m, cache);
      DispatchValid(Opcode(w) as nat, d.raw, m, s);
      FreshIsPlain(Dispatch(Opcode(w) as nat, d.raw, m, s), cache[m.pc := d], mod, s, n - 1);
    }
  }

  /** The handlers are given the same words with and without the cache if and only if the run is fresh. */
  lemma {:induction false} SameWordsIffFresh(m: Machine, cache: Cache, mod: ModuleInfo, s: Setting, n: nat)
    requires Fits(m, mod)
    ensures CachedRun(m, cache, mod, s, n).words == PlainRun(m, mod, s, n).words <==> FreshRun(m, cache, mod, s, n)
    decreases n
  {
    hide Dispatch, Opcode, Decode, Lookup, WordAt;
    if n > 0 && m.running && FetchAt(m, mod).Run? {
      var w, d := FetchAt(m, mod).w, Lookup(m, cache);
      DispatchFits(Opcode(w) as nat, d.raw, m, mod, s);
      DispatchFits(Opcode(w) as nat, w, m, mod, s);
      var x := CachedRun(Dispatch(Opcode(w) as nat, d.raw, m, s), cache[m.pc := d], mod, s, n - 1);
      var y := PlainRun(Dispatch(Opcode(w) as nat, w, m, s), mod, s, n - 1);
      assert ([d.raw] + x.words)[0] == d.raw && ([w] + y.words)[0] == w;
      assert ([d.raw] + x.words)[1..] == x.words && ([w] + y.words)[1..] == y.words;
      if d.raw == w {
        SameWordsIffFresh(Dispatch(Opcode(w) as nat, w, m, s), cache[m.pc := d], mod, s, n - 1);
      }
    }
  }

  // ------------------------------------------------------------------
  // The same condition on the run without a cache
  // ------------------------------------------------------------------

  /** An executed instruction: where it was fetched, and the word. */
  datatype Fetched = Fetched(addr: Uint32, word: bv32)

  /** The instructions `PlainRun` executes. */
  function PlainFetches(m: Machine, mod: ModuleInfo, s: Setting, n: nat): seq<Fetched>
    requires Fits(m, mod)
    decreases n
  {
    if n == 0 || !m.running || !FetchAt(m, mod).Run? then []
    else
      var w := FetchAt(m, mod).w;
      DispatchValid(Opcode(w) as nat, w, m, s);
      [Fetched(m.pc, w)] + PlainFetches(Dispatch(Opcode(w) as nat, w, m, s), mod, s, n - 1)
  }

  /** They carry the words `PlainRun` reports. */
  lemma {:induction false} FetchesAreWords(m: Machine, mod: ModuleInfo, s: Setting, n: nat)
    requires Fits(m, mod)
    ensures var fs, words := PlainFetches(m, mod, s, n), PlainRun(m, mod, s, n).words;
            |fs| == |words| && forall i :: 0 <= i < |fs| ==> fs[i].word == words[i]
    decreases n
  {
    hide Dispatch, Opcode, WordAt;
    if n > 0 && m.running && FetchAt(m, mod).Run? {
      var w := FetchAt(m, mod).w;
      DispatchFits(Opcode(w) as nat, w, m, mod, s);
      FetchesAreWords(Dispatch(Opcode(w) as nat, w, m, s), mod, s, n - 1);
    }
  }

  /** No address is executed with two different words, nor with another word than a cached one. */
  predicate Settled(cache: Cache, fs: seq<Fetched>) {
    (forall i :: 0 <= i < |fs| && fs[i].addr in cache ==> fs[i].word == cache[fs[i].addr].raw) &&
    forall i, j :: 0 <= i < j < |fs| && fs[i].addr == fs[j].addr ==> fs[i].word == fs[j].word
  }

  lemma SettledStep(cache: Cache, f: Fetched, d: Decoded, rest: seq<Fetched>)
    requires d.raw == f.word && (f.addr in cache ==> cache[f.addr] == d)
    ensures Settled(cache, [f] + rest) <==> Settled(cache[f.addr := d], rest)
  {
    var fs := [f] + rest;
    assert fs[0] == f && forall i :: 0 <= i < |rest| ==> fs[i + 1] == rest[i];
    if Settled(cache, fs) {
      forall i | 0 <= i < |rest| && rest[i].addr in cache[f.addr := d]
        ensures rest[i].word == cache[f.addr := d][rest[i].addr].raw
      {
        assert fs[i + 1] == rest[i];
      }
      forall i, j | 0 <= i < j < |rest| && rest[i].addr == rest[j].addr
        ensures rest[i].word == rest[j].word
      {
        assert fs[i + 1] == rest[i] && fs[j + 1] == rest[j];
      }
    }
    if Settled(cache[f.addr := d], rest) {
      forall i | 0 <= i < |fs| && fs[i].addr in cache
        ensures fs[i].word == cache[fs[i].addr].raw
      {
        assert i == 0 || fs[i] == rest[i - 1];
      }
      forall i, j | 0 <= i < j < |fs| && fs[i].addr == fs[j].addr
        ensures fs[i].word == fs[j].word
      {
        assert fs[j] == rest[j - 1] && (i == 0 || fs[i] == rest[i - 1]);
      }
    }
  }

  lemma LookupRaw(m: Machine, cache: Cache)
    requires m.pc + 4 <= |m.mem|
    ensures var d := Lookup(m, cache);
            if m.pc in cache then d == cache[m.pc] else d.raw == WordAt(m.mem, m.pc)
  {
  }

  lemma {:induction false} FreshIffSettled(m: Machine, cache: Cache, mod: ModuleInfo, s: Setting, n: nat)
    requires Fits(m, mod)
    ensures FreshRun(m, cache, mod, s, n) <==> Settled(cache, PlainFetches(m, mod, s, n))
    decreases n
  {
    hide Dispatch, Opcode, Decode, Lookup, WordAt;
    if n > 0 && m.running && FetchAt(m, mod).Run? {
      var w, d := FetchAt(m, mod).w, Lookup(m, cache);
      var next := Dispatch(Opcode(w) as nat, w, m, s);
      DispatchFits(Opcode(w) as nat, w, m, mod, s);
      var rest := PlainFetches(next, mod, s, n - 1);
      LookupRaw(m, cache);
      var fs := [Fetched(m.pc, w)] + rest;
      assert PlainFetches(m, mod, s, n) == fs && fs[0] == Fetched(m.pc, w);
      if d.raw == w {
        FreshIffSettled(next, cache[m.pc := d], mod, s, n - 1);
        SettledStep(cache, Fetched(m.pc, w), d, rest);
      }
    }
  }

  /** The handlers are given the same words with and without the cache if and only if the run without it
      executes no address with two different words, nor with another word than a cached one. */
  lemma SameWordsIff(m: Machine, cache: Cache, mod: ModuleInfo, s: Setting, n: nat)
    requires Fits(m, mod)
    ensures CachedRun(m, cache, mod, s, n).words == PlainRun(m, mod, s, n).words <==> Settled(cache, PlainFetches(m, mod, s, n))
  {
    SameWordsIffFresh(m, cache, mod, s, n);
    FreshIffSettled(m, cache, mod, s, n);
    hide Settled, FreshRun, PlainFetches, CachedRun, PlainRun;
  }

  /** From an empty cache only a changing word matters, and then the machines agree as well. */
  lemma FromEmptyCache(m: Machine, mod: ModuleInfo, s: Setting, n: nat)
    requires Fits(m, mod)
    ensures var fs := PlainFetches(m, mod, s, n);
            var settled := forall i, j :: 0 <= i < j < |fs| && fs[i].addr == fs[j].addr ==> fs[i].word == fs[j].word;
            && (CachedRun(m, map[], mod, s, n).words == PlainRun(m, mod, s, n).words <==> settled)
            && (settled ==> CachedRun(m, map[], mod, s, n).m == PlainRun(m, mod, s, n).m)
  {
    hide FreshRun, PlainFetches, CachedRun, PlainRun;
    SameWordsIff(m, map[], mod, s, n);
    FreshIffSettled(m, map[], mod, s, n);
    if Settled(map[], PlainFetches(m, mod, s, n)) {
      FreshIsPlain(m, map[], mod, s, n);
    }
  }

  // ------------------------------------------------------------------
  // Coherent caches and stores
  // ------------------------------------------------------------------

  /** Every cached entry is the decoding of the word memory holds at its address. */
  predicate Coherent(m: Machine, cache: Cache) {
    forall a :: a in cache ==> a + 4 <= |m.mem| && cache[a] == Decode(WordAt(m.mem, a))
  }

  /** Memory has kept the words at the cached addresses. */
  predicate KeepsCached(before: Bytes, after: Bytes, cache: Cache) {
    |before| == |after| && forall a :: a in cache && a + 4 <= |before| ==> WordAt(after, a) == WordAt(before, a)
  }

  /** Along the plain run, no handler changes a word at an address cached by then. */
  predicate UntouchedRun(m: Machine, cache: Cache, mod: ModuleInfo, s: Setting, n: nat)
    requires Fits(m, mod)
    decreases n
  {
    n == 0 || !m.running || !FetchAt(m, mod).Run? ||
    var w := FetchAt(m, mod).w;
    var next := Dispatch(Opcode(w) as nat, w, m, s);
    var cache' := cache[m.pc := Decode(w)];
    DispatchValid(Opcode(w) as nat, w, m, s);
    KeepsCached(m.mem, next.mem, cache') && UntouchedRun(next, cache', mod, s, n - 1)
  }

  lemma CoherentLookup(m: Machine, cache: Cache)
    requires Coherent(m, cache) && m.pc + 4 <= |m.mem|
    ensures Lookup(m, cache) == Decode(WordAt(m.mem, m.pc))
    ensures Coherent(m, cache[m.pc := Lookup(m, cache)])
  {
    hide Decode, WordAt;
  }

  lemma CoherentKept(m: Machine, m': Machine, cache: Cache)
    requires Coherent(m, cache) && KeepsCached(m.mem, m'.mem, cache)
    ensures Coherent(m', cache)
  {
    hide Decode, WordAt;
  }

  /** From a coherent cache, if no store changes a cached word, the cached loop reaches the same machine
      as the interpreter that decodes every word, and its cache is coherent again. */
  lemma {:induction false} CacheInvisible(m: Machine, cache: Cache, mod: ModuleInfo, s: Setting, n: nat)
    requires Fits(m, mod) && Coherent(m, cache) && UntouchedRun(m, cache, mod, s, n)
    ensures CachedRun(m, cache, mod, s, n).m == PlainRun(m, mod, s, n).m
    ensures CachedRun(m, cache, mod, s, n).words == PlainRun(m, mod, s, n).words
    ensures Coherent(CachedRun(m, cache, mod, s, n).m, CachedRun(m, cache, mod, s, n).cache)
    decreases n
  {
    hide Dispatch, Opcode, Decode, Coherent, KeepsCached, Lookup, WordAt;
    if n > 0 && m.running {
      match FetchAt(m, mod)
      case Leave =>
      case Illegal =>
        CoherentLookup(m, cache);
        CoherentKept2(m, m.(running := false), cache[m.pc := Lookup(m, cache)]);
      case Run(w) =>
        CoherentLookup(m, cache);
        var next := Dispatch(Opcode(w) as nat, w, m, s);
        var cache' := cache[m.pc := Lookup(m, cache)];
        DecodeRaw(w);
        DispatchValid(Opcode(w) as nat, w, m, s);
        CoherentKept(m, next, cache');
        CacheInvisible(next, cache', mod, s, n - 1);
    }
  }

  lemma CoherentKept2(m: Machine, m': Machine, cache: Cache)
    requires Coherent(m, cache) && m'.mem == m.mem
    ensures Coherent(m', cache)
  {
    hide Decode, WordAt;
  }

  lemma DecodeRaw(w: bv32)
    ensures Decode(w).raw == w
  {
  }

  // ------------------------------------------------------------------
  // Programs without store instructions
  // ------------------------------------------------------------------

  predicate IsStore(op: nat) { IsEdit(op) || op == 61 }

  /** Only the string edits and the demultiplexer write memory. */
  lemma OnlyStoresWrite(op: nat, w: bv32, m: Machine, env: Env)
    requires m.Valid() && op < OPCODES && !IsStore(op)
    ensures Exec(op, w, m, env).mem == m.mem
  {
    hide Alu, Edit, Selected, CValue, Jump, Demux, TimerOp, CountUp, CountDown, CountUpDown, Edge, Latch, RegA, RegB, RegC, SetA;
  }

  /** No word of the module, at any alignment, is a store instruction. */
  ghost predicate StoreFree(m: Bytes, mod: ModuleInfo)
    requires mod.addr + mod.size + 3 <= |m|
  {
    forall a :: InModule(a, mod) ==> !IsStore(Opcode(WordAt(m, a)) as nat)
  }

  /** A module without stores never touches a cached word: a check on memory before the run. */
  lemma {:induction false} StoreFreeUntouched(m: Machine, cache: Cache, mod: ModuleInfo, s: Setting, n: nat)
    requires Fits(m, mod) && StoreFree(m.mem, mod)
    ensures UntouchedRun(m, cache, mod, s, n) && PlainRun(m, mod, s, n).m.mem == m.mem
    decreases n
  {
    hide Exec, Dispatch, Decode, WordAt, StoreFree, Opcode;
    if n > 0 && m.running && FetchAt(m, mod).Run? {
      var w := FetchAt(m, mod).w;
      DispatchValid(Opcode(w) as nat, w, m, s);
      StoreFreeAt(m.mem, mod, m.pc);
      OnlyStoresWrite(Opcode(w) as nat, w, m, s.env);
      StoreFreeUntouched(Dispatch(Opcode(w) as nat, w, m, s), cache[m.pc := Decode(w)], mod, s, n - 1);
    }
  }

  lemma StoreFreeAt(m: Bytes, mod: ModuleInfo, a: nat)
    requires mod.addr + mod.size + 3 <= |m| && StoreFree(m, mod) && InModule(a, mod)
    ensures !IsStore(Opcode(WordAt(m, a)) as nat)
  {
  }

  // ------------------------------------------------------------------
  // The clock
  // ------------------------------------------------------------------

  lemma ExecKeepsClock(op: nat, w: bv32, m: Machine, env: Env)
    requires m.Valid() && op < OPCODES
    ensures SameClock(m, Exec(op, w, m, env))
  {
    hide Alu, Edit, Selected, CValue, Jump, Demux, TimerOp, CountUp, CountDown, CountUpDown, Edge, Latch, RegA, RegB, RegC, SetA;
  }

  /** One tick adds the duration of one instruction and leaves less than a millisecond in the accumulator. */
  lemma TickExact(m: Machine, rate: nat)
    requires m.nsAccum < NS_PER_MS
    ensures Nanos(Tick(m, rate)) == Nanos(m) + InstrNs(rate)
    ensures Tick(m, rate).nsAccum < NS_PER_MS && Tick(m, rate).timeMs >= m.timeMs && Tick(m, rate).executed == m.executed
  {
  }

  /** A second holds as many instructions as the clock rate says, up to the cut nanoseconds of each; with
      rate 0 the clock stands still. */
  lemma SecondOfInstructions(rate: nat, m: Machine)
    ensures rate > 0 ==> rate * InstrNs(rate) <= 1000000000 < rate * InstrNs(rate) + rate
    ensures rate == 0 ==> Tick(m, rate) == m
  {
    if rate > 0 {
      Divided(1000000000, rate);
    }
  }

  lemma Divided(x: nat, d: nat)
    requires d > 0
    ensures d * (x / d) <= x < d * (x / d) + d
  {
  }

  /** A cached entry holds the word and its fields. */
  lemma DecodeFields(op: bv8, a: bv8, b: bv8, imm: bool, c: bv8)
    requires op < 0x80
    ensures Decode(Pack(op, a, b, imm, c)) == Decoded(Pack(op, a, b, imm, c), op, a, b, c, imm, if imm then c as bv32 else 0)
  {
    FieldsOfPack(op, a, b, imm, c);
    ImmediatePart(Pack(op, a, b, imm, c));
    hide Pack, Opcode, FieldA, FieldB, FieldC, HasImm;
  }

  lemma ImmediatePart(w: bv32)
    ensures w & 0xFF == FieldC(w) as bv32
  {
  }

  lemma DispatchClock(op: nat, w: bv32, m: Machine, s: Setting)
    requires m.Valid() && op < OPCODES && m.nsAccum < NS_PER_MS
    ensures var r := Dispatch(op, w, m, s);
            Nanos(r) == Nanos(m) + InstrNs(s.rate) && r.nsAccum < NS_PER_MS && r.timeMs >= m.timeMs && r.executed == m.executed + 1
  {
    hide Exec, Tick;
    ExecKeepsClock(op, w, m, s.env);
    var e := Exec(op, w, m, s.env);
    var p := if e.pc == m.pc then e.(pc := (m.pc + 4) % U32) else e;
    TickExact(p.(executed := p.executed + 1), s.rate);
  }

  /** A run of the cached loop moves the clock by exactly the instructions it dispatched; nothing is
      lost to rounding and the clock never goes back. */
  lemma {:induction false} RunClock(m: Machine, cache: Cache, mod: ModuleInfo, s: Setting, n: nat)
    requires Fits(m, mod) && m.nsAccum < NS_PER_MS
    ensures var r := CachedRun(m, cache, mod, s, n);
            && r.m.nsAccum < NS_PER_MS && r.m.timeMs >= m.timeMs
            && r.m.executed == m.executed + |r.words| && |r.words| <= n
            && Nanos(r.m) == Nanos(m) + |r.words| * InstrNs(s.rate)
    decreases n
  {
    hide Dispatch, Opcode, Decode, Lookup, WordAt, InstrNs;
    if n > 0 && m.running && FetchAt(m, mod).Run? {
      var w, d := FetchAt(m, mod).w, Lookup(m, cache);
      var next := Dispatch(Opcode(w) as nat, d.raw, m, s);
      DispatchValid(Opcode(w) as nat, d.raw, m, s);
      DispatchClock(Opcode(w) as nat, d.raw, m, s);
      RunClock(next, cache[m.pc := d], mod, s, n - 1);
      OneMore(|CachedRun(next, cache[m.pc := d], mod, s, n - 1).words|, InstrNs(s.rate));
    }
  }

  lemma OneMore(k: nat, d: nat)
    ensures (k + 1) * d == k * d + d
  {
  }
}
