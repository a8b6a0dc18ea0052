/** Traces with any presets, zero included. A call with preset 0 switches the output of TON, TOF and TP off
    and returns before it looks at the input. */
module TimerPresets {
  import opened Words
  import opened Timers
  import opened TimerTraces
  import opened TimerIdeal

  /** The samples with a positive preset. */
  function Positive(tr: Trace): (r: Trace)
    ensures PositivePresets(r) && |r| <= |tr|
  {
    if tr == [] then []
    else
      var before := Positive(tr[..|tr| - 1]);
      if tr[|tr| - 1].preset > 0 then before + [tr[|tr| - 1]] else before
  }

  /** How many of them come before the last sample with preset 0. */
  function Since(tr: Trace): (z: nat)
    ensures z <= |Positive(tr)|
    ensures tr != [] && tr[|tr| - 1].preset > 0 ==> z < |Positive(tr)|
  {
    if tr == [] then 0
    else if tr[|tr| - 1].preset == 0 then |Positive(tr)| else Since(tr[..|tr| - 1])
  }

  predicate Resettable(k: Kind) { k == TON || k == TOF || k == TP }

  /** Edge memory, start and timing are the same. */
  predicate SameMemory(t: TimerState, u: TimerState) {
    t.prev == u.prev && t.start == u.start && t.timing == u.timing
  }

  lemma MemoryStep(k: Kind, t: TimerState, u: TimerState, input: bool, p: nat, now: nat)
    requires Resettable(k) && SameMemory(t, u)
    ensures p > 0 ==> SameMemory(Set(k, t, input, p, now), Set(k, u, input, p, now))
    ensures p == 0 ==> SameMemory(Set(k, t, input, p, now), u)
  {
    hide MsDiff, Split;
  }

  lemma LastPositive(tr: Trace)
    requires tr != [] && tr[|tr| - 1].preset > 0
    ensures var ps := Positive(tr); ps != [] && ps[|ps| - 1] == tr[|tr| - 1] && ps[..|ps| - 1] == Positive(tr[..|tr| - 1])
  {
  }

  /** What a timer remembers is what it would remember without the samples of preset 0: the next sample
      with a positive preset sees an edge against the last sample with a positive preset. */
  lemma {:induction false} ZeroForgotten(k: Kind, tr: Trace)
    requires Resettable(k)
    ensures SameMemory(Run(k, tr), Run(k, Positive(tr)))
  {
    hide SameMemory, Update;
    if tr == [] {
      Itself(IDLE);
    } else {
      var last := tr[|tr| - 1];
      ZeroForgotten(k, tr[..|tr| - 1]);
      if last.preset > 0 {
        LastPositive(tr);
      }
      MemoryStep(k, Run(k, tr[..|tr| - 1]), Run(k, Positive(tr[..|tr| - 1])), last.input, last.preset, last.now);
    }
  }

  lemma Itself(t: TimerState)
    ensures SameMemory(t, t)
  {
  }

  /** Right after a sample with preset 0 the output is off and the elapsed time is 0. */
  lemma ZeroPresetOff(k: Kind, tr: Trace)
    requires Resettable(k) && tr != [] && tr[|tr| - 1].preset == 0
    ensures !Run(k, tr).output && Run(k, tr).et == 0
  {
    hide MsDiff, Split;
  }

  /** The elapsed time shown: that of the first due sample since `r`, or 0 when a sample with preset 0
      has come after it. */
  function Shows(ps: Trace, r: nat, z: nat): nat
    requires r < |ps|
  {
    var d := FirstDue(ps, r, |ps| - 1);
    if d >= z then Diff(ps[r].now, ps[d].now) else 0
  }

  /** Output and elapsed time on any trace, in terms of its positive samples `ps` and the last sample
      with preset 0, which comes after `z` of them. A zero preset takes TON's output away for good once
      it has fired, and TP's until the next rising edge; TOF's comes back at the next sample. */
  ghost predicate Outputs(k: Kind, ps: Trace, z: nat, t: TimerState)
    requires Resettable(k)
  {
    if ps == [] then !t.output && t.et == 0
    else
      var n := |ps| - 1;
      match k
      case TON =>
        if !ps[n].input then !t.output && t.et == 0
        else var r := RunStart(ps, n); (t.output <==> Fired(ps, r, n) && FirstDue(ps, r, n) >= z) && t.et == Shows(ps, r, z)
      case TOF =>
        if ps[n].input then (t.output <==> n >= z) && t.et == 0
        else var f := RunStart(ps, n);
             if f == 0 then !t.output && t.et == 0
             else (t.output <==> !Fired(ps, f, n) && n >= z) && t.et == Shows(ps, f, z)
      case TP =>
        var r := LastRise(ps, n);
        if r < 0 then !t.output && t.et == 0
        else (t.output <==> !Fired(ps, r, n) && r >= z) && t.et == Shows(ps, r, z)
  }

  // ------------------------------------------------------------------
  // One more sample
  // ------------------------------------------------------------------

  lemma ZeroStep(k: Kind, ps: Trace, t: TimerState)
    requires Resettable(k) && !t.output && t.et == 0
    ensures Outputs(k, ps, |ps|, t)
  {
    hide Fired, Diff;
  }

  lemma NothingRun()
    ensures Run(TON, []) == Run(TOF, []) == Run(TP, []) == IDLE
  {
  }

  /** One call with a positive preset: what happens to output and elapsed time. */
  lemma TonCall(t: TimerState, input: bool, p: nat, now: nat)
    requires p > 0
    ensures var s := Set(TON, t, input, p, now);
            if !input then !s.output && s.et == 0
            else if !t.prev then s.output == t.output && s.et == 0
            else if t.timing then s.et == MsDiff(t.start, Split(now)) && s.output == (t.output || s.et >= p)
            else s.output == t.output && s.et == t.et
  {
    hide MsDiff, Split;
    NoTimeNoDiff(now);
  }

  lemma TofCall(t: TimerState, input: bool, p: nat, now: nat)
    requires p > 0
    ensures var s := Set(TOF, t, input, p, now);
            if input then s.output && s.et == 0
            else if t.prev then s.output && s.et == 0
            else if t.timing then s.et == MsDiff(t.start, Split(now)) && s.output == (s.et < p)
            else s.output == t.output && s.et == t.et
  {
    hide MsDiff, Split;
    NoTimeNoDiff(now);
  }

  lemma TpCall(t: TimerState, input: bool, p: nat, now: nat)
    requires p > 0
    ensures var s := Set(TP, t, input, p, now);
            if input && !t.prev then s.output && s.et == 0
            else if t.timing then s.et == MsDiff(t.start, Split(now)) && s.output == (t.output && s.et < p)
            else s.output == t.output && s.et == t.et
  {
    hide MsDiff, Split;
    NoTimeNoDiff(now);
  }

  /** The first due sample since `r`, one sample further. */
  lemma OneFurther(ps: Trace, r: nat, z: nat)
    requires |ps| > 1 && r < |ps| - 1 && z < |ps|
    ensures var n := |ps| - 1;
            && (Fired(ps, r, n) <==> Fired(ps[..n], r, n - 1) || Due(ps, r, n))
            && FirstDue(ps, r, n) == (if Fired(ps[..n], r, n - 1) then FirstDue(ps[..n], r, n - 1) else n)
            && Shows(ps, r, z) == if Fired(ps[..n], r, n - 1) then Shows(ps[..n], r, z) else Diff(ps[r].now, ps[n].now)
  {
    hide Fired, Diff;
    FiredPrefix(ps, r, |ps| - 2);
    FiredStep(ps, r, |ps| - 1);
  }

  lemma AtEdge(ps: Trace, z: nat)
    requires ps != [] && PositivePresets(ps) && z < |ps|
    ensures var n := |ps| - 1; !Fired(ps, n, n) && FirstDue(ps, n, n) == n && Shows(ps, n, z) == 0
  {
    hide Fired, Diff;
    EdgeNotDue(ps, |ps| - 1);
  }

  lemma TonOutputs(ps: Trace, z: nat, t: TimerState)
    requires ps != [] && PositivePresets(ps) && z < |ps|
    requires Outputs(TON, ps[..|ps| - 1], z, t) && SameMemory(t, Run(TON, ps[..|ps| - 1]))
    ensures var s := ps[|ps| - 1]; Outputs(TON, ps, z, Set(TON, t, s.input, s.preset, s.now))
  {
    hide MsDiff, Split, Fired, Run, Update, FirstDue, Shows;
    var n := |ps| - 1;
    TonCall(t, ps[n].input, ps[n].preset, ps[n].now);
    AtEdge(ps, z);
    if n == 0 {
      NothingRun();
    } else {
      TonTrace(ps[..n]);
      if ps[n].input && ps[n - 1].input {
        RunStartPrefix(ps, n - 1);
        OneFurther(ps, RunStart(ps, n), z);
      }
    }
  }

  lemma TofOutputs(ps: Trace, z: nat, t: TimerState)
    requires ps != [] && PositivePresets(ps) && z < |ps|
    requires Outputs(TOF, ps[..|ps| - 1], z, t) && SameMemory(t, Run(TOF, ps[..|ps| - 1]))
    ensures var s := ps[|ps| - 1]; Outputs(TOF, ps, z, Set(TOF, t, s.input, s.preset, s.now))
  {
    hide MsDiff, Split, Fired, Run, Update, FirstDue, Shows;
    var n := |ps| - 1;
    TofCall(t, ps[n].input, ps[n].preset, ps[n].now);
    AtEdge(ps, z);
    if n == 0 {
      NothingRun();
    } else {
      TofTrace(ps[..n]);
      if !ps[n].input && !ps[n - 1].input {
        RunStartPrefix(ps, n - 1);
        OneFurther(ps, RunStart(ps, n), z);
      }
    }
  }

  lemma TpOutputs(ps: Trace, z: nat, t: TimerState)
    requires ps != [] && PositivePresets(ps) && z < |ps|
    requires Outputs(TP, ps[..|ps| - 1], z, t) && SameMemory(t, Run(TP, ps[..|ps| - 1]))
    ensures var s := ps[|ps| - 1]; Outputs(TP, ps, z, Set(TP, t, s.input, s.preset, s.now))
  {
    hide MsDiff, Split, Fired, Run, Update, FirstDue, Shows;
    var n := |ps| - 1;
    TpCall(t, ps[n].input, ps[n].preset, ps[n].now);
    AtEdge(ps, z);
    if n == 0 {
      NothingRun();
    } else {
      TpTrace(ps[..n]);
      LastRisePrefix(ps, n - 1);
      if !Rises(ps, n) && LastRise(ps, n) >= 0 {
        OneFurther(ps, LastRise(ps, n), z);
      }
    }
  }

  /** On any trace at all: output and elapsed time of TON, TOF and TP. */
  lemma {:induction false} AnyPresets(k: Kind, tr: Trace)
    requires Resettable(k)
    ensures Outputs(k, Positive(tr), Since(tr), Run(k, tr))
  {
    hide Outputs, Update;
    if tr == [] {
      NothingShown(k);
    } else {
      var last, before := tr[|tr| - 1], tr[..|tr| - 1];
      if last.preset == 0 {
        ZeroPresetOff(k, tr);
        ZeroStep(k, Positive(tr), Run(k, tr));
      } else {
        AnyPresets(k, before);
        ZeroForgotten(k, before);
        LastPositive(tr);
        match k
        case TON => TonOutputs(Positive(tr), Since(tr), Run(k, before));
        case TOF => TofOutputs(Positive(tr), Since(tr), Run(k, before));
        case TP => TpOutputs(Positive(tr), Since(tr), Run(k, before));
      }
    }
  }

  lemma NothingShown(k: Kind)
    requires Resettable(k)
    ensures Outputs(k, [], 0, Run(k, []))
  {
  }

  /** With preset 0 throughout, the timing diagrams of the standard are followed by TP always, and by TON
      and TOF exactly while the input is off: a TON of no delay should follow its input and never does. */
  lemma ZeroPresetIff(k: Kind, tr: Trace)
    requires Resettable(k) && tr != [] && Monotone(tr) && ConstantPreset(tr, 0)
    ensures (Run(k, tr).output <==> Ideal(k, tr, 0, |tr| - 1)) <==> k == TP || !tr[|tr| - 1].input
  {
    hide Run;
    ZeroPresetOff(k, tr);
  }

  // ------------------------------------------------------------------
  // TOFR on any trace
  // ------------------------------------------------------------------

  /** The differences between consecutive samples from `f` to `i`, added up in 32 bits. */
  function SumSince(tr: Trace, f: nat, i: nat): nat
    requires f <= i < |tr|
  {
    if i == f then 0 else (SumSince(tr, f, i - 1) + Diff(tr[i - 1].now, tr[i].now)) % U32
  }

  /** At sample `i` the sum reads at least the preset. */
  predicate SumDue(tr: Trace, f: nat, i: nat)
    requires f <= i < |tr|
  {
    SumSince(tr, f, i) >= tr[i].preset
  }

  /** The first such sample from `f` on, or `n`. */
  function FirstSum(tr: Trace, f: nat, n: nat): (i: nat)
    requires f <= n < |tr|
    ensures f <= i <= n
    ensures forall j :: f <= j < i ==> !SumDue(tr, f, j)
    ensures i < n ==> SumDue(tr, f, i)
  {
    if n == f then n
    else
      var i := FirstSum(tr, f, n - 1);
      if SumDue(tr, f, i) then i else n
  }

  /** The state of a retentive off-delay timer after sample `n`, whatever the presets: on until the sum
      since the fall first reads at least the preset of its sample. */
  predicate TofrAt(tr: Trace, n: nat, t: TimerState)
    requires n < |tr|
  {
    && t.enabled && t.prev == tr[n].input
    && if tr[n].input then t.output && !t.timing && t.et == 0
       else var f := RunStart(tr, n);
            if f == 0 then !t.output && !t.timing && t.et == 0
            else var d := FirstSum(tr, f, n);
                 var over := SumDue(tr, f, d);
                 && t.et == SumSince(tr, f, d) && (t.output <==> !over) && (t.timing <==> !over)
                 && (t.timing ==> t.start == Split(tr[n].now))
  }

  lemma {:induction false} SumPrefix(tr: Trace, f: nat, i: nat)
    requires f <= i < |tr| - 1
    ensures SumSince(tr[..|tr| - 1], f, i) == SumSince(tr, f, i)
  {
    hide Diff;
    if f < i {
      SumPrefix(tr, f, i - 1);
    }
  }

  lemma {:induction false} FirstSumPrefix(tr: Trace, f: nat, n: nat)
    requires f <= n < |tr| - 1
    ensures var d := FirstSum(tr, f, n);
            && FirstSum(tr[..|tr| - 1], f, n) == d && SumSince(tr[..|tr| - 1], f, d) == SumSince(tr, f, d)
            && (SumDue(tr[..|tr| - 1], f, d) <==> SumDue(tr, f, d))
  {
    hide Diff, SumSince;
    SumPrefix(tr, f, FirstSum(tr, f, n));
    if f < n {
      FirstSumPrefix(tr, f, n - 1);
    }
  }

  lemma TofrCall(t: TimerState, input: bool, p: nat, now: nat)
    requires t.prev ==> !t.timing && t.et == 0
    ensures var s := Set(TOFR, t, input, p, now);
            && s.enabled && s.prev == input
            && if input then s.output && !s.timing && s.et == 0
               else if t.prev then s.et == 0 && (s.output <==> p > 0) && (s.timing <==> p > 0) && s.start == Split(now)
               else if t.timing then
                 s.et == (t.et + MsDiff(t.start, Split(now))) % U32 && (s.output <==> s.et < p) && (s.timing <==> s.et < p) && s.start == Split(now)
               else s == t.(input := input, preset := p, enabled := true)
  {
    hide MsDiff, Split;
    NoTimeNoDiff(now);
  }

  /** The sum at its stopping point, one sample further. */
  lemma SumFurther(tr: Trace, f: nat)
    requires |tr| > 1 && f < |tr| - 1
    ensures var n, before := |tr| - 1, tr[..|tr| - 1];
            var d, e := FirstSum(before, f, n - 1), FirstSum(tr, f, n);
            if SumDue(before, f, d) then e == d && SumDue(tr, f, e) && SumSince(tr, f, e) == SumSince(before, f, d)
            else e == n && SumSince(tr, f, e) == (SumSince(before, f, d) + Diff(tr[n - 1].now, tr[n].now)) % U32
  {
    hide Diff, SumDue;
    FirstSumPrefix(tr, f, |tr| - 2);
  }

  lemma AtFall(tr: Trace, f: nat)
    requires f < |tr|
    ensures FirstSum(tr, f, f) == f && SumSince(tr, f, f) == 0
  {
  }

  lemma TofrNext(tr: Trace, t: TimerState)
    requires |tr| > 1 && TofrAt(tr[..|tr| - 1], |tr| - 2, t)
    ensures var s := tr[|tr| - 1]; TofrAt(tr, |tr| - 1, Set(TOFR, t, s.input, s.preset, s.now))
  {
    hide MsDiff, Split, Update, SumSince, FirstSum;
    var n := |tr| - 1;
    TofrCall(t, tr[n].input, tr[n].preset, tr[n].now);
    AtFall(tr, n);
    if !tr[n].input && !tr[n - 1].input {
      RunStartPrefix(tr, n - 1);
      SumFurther(tr, RunStart(tr, n));
    }
  }

  /** On any trace at all: output and elapsed time of TOFR. */
  lemma {:induction false} TofrTrace(tr: Trace)
    requires tr != []
    ensures TofrAt(tr, |tr| - 1, Run(TOFR, tr))
  {
    if |tr| > 1 {
      hide TofrAt;
      TofrTrace(tr[..|tr| - 1]);
      TofrNext(tr, Run(TOFR, tr[..|tr| - 1]));
    } else {
      hide MsDiff, Split;
      TofrCall(IDLE, tr[0].input, tr[0].preset, tr[0].now);
      assert Run(TOFR, tr[..0]) == IDLE;
    }
  }

  // ------------------------------------------------------------------
  // TONR with any presets
  // ------------------------------------------------------------------

  /** The elapsed time shown after sample `n`: the clock differences between true samples in a row, as long
      as the run of true samples has not stopped the timer. */
  ghost function Retained(tr: Trace, n: nat): nat
    requires n < |tr|
    decreases n, 0
  {
    if n == 0 then 0
    else if tr[n].input && tr[n - 1].input && !Stopped(tr, n - 1) then (Retained(tr, n - 1) + Diff(tr[n - 1].now, tr[n].now)) % U32
    else Retained(tr, n - 1)
  }

  /** At sample `i` the time shown has reached the preset of that sample. */
  ghost predicate Full(tr: Trace, i: nat)
    requires i < |tr|
    decreases i, 1
  {
    Retained(tr, i) >= tr[i].preset
  }

  /** It has done so in the run of equal inputs that sample `n` is in. */
  ghost predicate Stopped(tr: Trace, n: nat)
    requires n < |tr|
    decreases n, 2
  {
    exists i :: RunStart(tr, n) <= i <= n && Full(tr, i)
  }

  ghost predicate OnceFull(tr: Trace, n: nat)
    requires n < |tr|
  {
    exists i :: 0 <= i <= n && tr[i].input && Full(tr, i)
  }

  /** The time stands still after a stop until the next rising edge, whatever becomes of the preset; the
      output stays on for good. */
  ghost predicate TonrAny(tr: Trace, n: nat, t: TimerState)
    requires n < |tr|
  {
    && t.enabled && t.prev == tr[n].input && t.et == Retained(tr, n) && (t.output <==> OnceFull(tr, n))
    && (tr[n].input ==> (t.timing <==> !Stopped(tr, n)) && (t.timing ==> t.start == Split(tr[n].now)))
  }

  lemma TonrCall(t: TimerState, input: bool, p: nat, now: nat)
    requires t.et < U32
    ensures var s := Set(TONR, t, input, p, now);
            && s.enabled && s.prev == input
            && if !input then s == t.(input := input, preset := p, enabled := true, prev := false)
               else
                 var et := if t.prev && t.timing then (t.et + MsDiff(t.start, Split(now))) % U32 else t.et;
                 && s.et == et && (s.output <==> t.output || et >= p)
                 && (s.timing <==> (!t.prev || t.timing) && et < p) && (s.timing ==> s.start == Split(now))
  {
    hide MsDiff, Split;
    NoTimeNoDiff(now);
  }

  lemma {:induction false} RetainedFits(tr: Trace, n: nat)
    requires n < |tr|
    ensures Retained(tr, n) < U32
    decreases n
  {
    hide Diff, Stopped;
    if n > 0 {
      RetainedFits(tr, n - 1);
    }
  }

  lemma StoppedNext(tr: Trace, n: nat)
    requires 0 < n < |tr|
    ensures Stopped(tr, n) <==> Full(tr, n) || (tr[n - 1].input == tr[n].input && Stopped(tr, n - 1))
    ensures OnceFull(tr, n) <==> (tr[n].input && Full(tr, n)) || OnceFull(tr, n - 1)
  {
    hide Full;
  }

  lemma TonrAnyNext(tr: Trace, n: nat, t: TimerState)
    requires 0 < n < |tr| && TonrAny(tr, n - 1, t)
    ensures TonrAny(tr, n, Set(TONR, t, tr[n].input, tr[n].preset, tr[n].now))
  {
    hide MsDiff, Split, Update, Stopped, OnceFull, RunStart;
    RetainedFits(tr, n - 1);
    TonrCall(t, tr[n].input, tr[n].preset, tr[n].now);
    StoppedNext(tr, n);
  }

  lemma TonrAnyFirst(tr: Trace)
    requires tr != []
    ensures TonrAny(tr, 0, Set(TONR, IDLE, tr[0].input, tr[0].preset, tr[0].now))
  {
    hide MsDiff, Split;
    TonrCall(IDLE, tr[0].input, tr[0].preset, tr[0].now);
    assert Full(tr, 0) <==> tr[0].preset == 0;
  }

  /** On any trace at all: output and elapsed time of TONR, at every sample. */
  lemma {:induction false} TonrAnyPresets(tr: Trace, n: nat)
    requires n < |tr|
    ensures TonrAny(tr, n, Run(TONR, tr[..n + 1]))
    decreases n
  {
    hide TonrAny, Set;
    assert tr[..n + 1][..n] == tr[..n];
    if n > 0 {
      TonrAnyPresets(tr, n - 1);
      TonrAnyNext(tr, n, Run(TONR, tr[..n]));
    } else {
      TonrAnyFirst(tr);
      assert Run(TONR, tr[..0]) == IDLE;
    }
  }
}
