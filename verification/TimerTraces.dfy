/** What the timers do over whole sampled traces. A sample is one `*_set` call; an `update_all_timers`
    pass is the sample that repeats input and preset (`PassIsSample`). The theorems are about the code
    with its own clock difference; the ideal IEC behaviour is compared with it separately. */
module TimerTraces {
  import opened Words
  import opened Timers

  datatype Sample = Sample(input: bool, preset: nat, now: nat)

  type Trace = seq<Sample>

  /** The state of a timer after `timers_init` and a trace of calls. */
  function Run(k: Kind, tr: Trace): TimerState {
    if tr == [] then IDLE
    else var last := tr[|tr| - 1]; Set(k, Run(k, tr[..|tr| - 1]), last.input, last.preset, last.now)
  }

  lemma PassIsSample(k: Kind, t: TimerState, now: nat)
    requires t.enabled
    ensures Update(k, t, now) == Set(k, t, t.input, t.preset, now)
  {
    assert t.(input := t.input, preset := t.preset, enabled := true) == t;
  }

  predicate PositivePresets(tr: Trace) {
    forall i :: 0 <= i < |tr| ==> tr[i].preset > 0
  }

  /** The first sample of the run of equal inputs that sample `n` belongs to. */
  function RunStart(tr: Trace, n: nat): (r: nat)
    requires n < |tr|
    ensures r <= n
    ensures forall i :: r <= i <= n ==> tr[i].input == tr[n].input
    ensures r > 0 ==> tr[r - 1].input != tr[n].input
  {
    if n == 0 || tr[n - 1].input != tr[n].input then n else RunStart(tr, n - 1)
  }

  /** At sample `i` the clock difference from sample `r` has reached the preset. */
  predicate Due(tr: Trace, r: nat, i: nat)
    requires r < |tr| && i < |tr|
  {
    Diff(tr[r].now, tr[i].now) >= tr[i].preset
  }

  /** Some sample from `r` to `n` was due. */
  ghost predicate Fired(tr: Trace, r: nat, n: nat)
    requires r <= n < |tr|
  {
    exists i :: r <= i <= n && Due(tr, r, i)
  }

  /** The first due sample from `r` on, or `n`. */
  function FirstDue(tr: Trace, r: nat, n: nat): (i: nat)
    requires r <= n < |tr|
    ensures r <= i <= n
    ensures forall j :: r <= j < i ==> !Due(tr, r, j)
    ensures i < n ==> Due(tr, r, i)
  {
    if r == n then n
    else
      var i := FirstDue(tr, r, n - 1);
      if Due(tr, r, i) then i else n
  }

  lemma {:induction false} RunStartPrefix(tr: Trace, n: nat)
    requires n < |tr| - 1
    ensures RunStart(tr[..|tr| - 1], n) == RunStart(tr, n)
  {
    if n > 0 && tr[n - 1].input == tr[n].input {
      RunStartPrefix(tr, n - 1);
    }
  }

  lemma {:induction false} FirstDuePrefix(tr: Trace, r: nat, n: nat)
    requires r <= n < |tr| - 1
    ensures FirstDue(tr[..|tr| - 1], r, n) == FirstDue(tr, r, n)
  {
    if r < n {
      FirstDuePrefix(tr, r, n - 1);
    }
  }

  /** Either nothing is due yet, or the first due sample is the stopping point for good. */
  lemma FiredAt(tr: Trace, r: nat, n: nat)
    requires r <= n < |tr|
    ensures Fired(tr, r, n) <==> Due(tr, r, FirstDue(tr, r, n))
  {
    if Fired(tr, r, n) {
      var i :| r <= i <= n && Due(tr, r, i);
    }
  }

  lemma FiredStep(tr: Trace, r: nat, n: nat)
    requires r < n < |tr|
    ensures Fired(tr, r, n) <==> Fired(tr, r, n - 1) || Due(tr, r, n)
    ensures FirstDue(tr, r, n) == if Fired(tr, r, n - 1) then FirstDue(tr, r, n - 1) else n
  {
    FiredAt(tr, r, n - 1);
  }

  lemma FiredPrefix(tr: Trace, r: nat, n: nat)
    requires r <= n < |tr| - 1
    ensures Fired(tr[..|tr| - 1], r, n) <==> Fired(tr, r, n)
    ensures FirstDue(tr[..|tr| - 1], r, n) == FirstDue(tr, r, n)
  {
    var before := tr[..|tr| - 1];
    FirstDuePrefix(tr, r, n);
    FiredAt(tr, r, n);
    FiredAt(before, r, n);
    assert Due(before, r, FirstDue(tr, r, n)) <==> Due(tr, r, FirstDue(tr, r, n));
  }

  /** An edge sample is never due: no time has passed and the preset is positive. */
  lemma EdgeNotDue(tr: Trace, n: nat)
    requires n < |tr| && tr[n].preset > 0
    ensures Diff(tr[n].now, tr[n].now) == 0 && !Fired(tr, n, n) && FirstDue(tr, n, n) == n
  {
    NoTimeNoDiff(tr[n].now);
  }

  // ------------------------------------------------------------------
  // TON
  // ------------------------------------------------------------------

  /** The state of an on-delay timer after sample `n` of a trace: the output is on exactly when the
      input has been true since its last rise and some sample since then was due. */
  ghost predicate TonAt(tr: Trace, n: nat, t: TimerState)
    requires n < |tr|
  {
    && t.enabled && t.prev == tr[n].input
    && if !tr[n].input then !t.output && !t.timing && t.et == 0
       else var r := RunStart(tr, n);
            && t.start == Split(tr[r].now)
            && t.et == Diff(tr[r].now, tr[FirstDue(tr, r, n)].now)
            && (t.output <==> Fired(tr, r, n))
            && (t.timing <==> !Fired(tr, r, n))
  }

  lemma TonStep(tr: Trace, t: TimerState)
    requires |tr| > 1 && PositivePresets(tr)
    requires TonAt(tr[..|tr| - 1], |tr| - 2, t)
    ensures var s := tr[|tr| - 1]; TonAt(tr, |tr| - 1, Set(TON, t, s.input, s.preset, s.now))
  {
    hide MsDiff, Split;
    var n := |tr| - 1;
    if tr[n].input {
      if tr[n - 1].input {
        var r := RunStart(tr, n);
        RunStartPrefix(tr, n - 1);
        FiredPrefix(tr, r, n - 1);
        FiredStep(tr, r, n);
      } else {
        EdgeNotDue(tr, n);
      }
    }
  }

  lemma {:induction false} TonTrace(tr: Trace)
    requires tr != [] && PositivePresets(tr)
    ensures TonAt(tr, |tr| - 1, Run(TON, tr))
  {
    hide TonAt;
    if |tr| > 1 {
      TonTrace(tr[..|tr| - 1]);
      TonStep(tr, Run(TON, tr[..|tr| - 1]));
    } else {
      TonFirst(tr);
    }
  }

  lemma TonFirst(tr: Trace)
    requires |tr| == 1 && PositivePresets(tr)
    ensures TonAt(tr, 0, Run(TON, tr))
  {
    hide MsDiff, Split;
    EdgeNotDue(tr, 0);
    assert Run(TON, tr[..0]) == IDLE;
  }

  // ------------------------------------------------------------------
  // TOF
  // ------------------------------------------------------------------

  /** The state of an off-delay timer after sample `n`: with the input false, the output is on exactly
      when the input has been true before and no sample since its last fall was due. */
  ghost predicate TofAt(tr: Trace, n: nat, t: TimerState)
    requires n < |tr|
  {
    && t.enabled && t.prev == tr[n].input
    && if tr[n].input then t.output && !t.timing && t.et == 0
       else var f := RunStart(tr, n);
            if f == 0 then !t.output && !t.timing && t.et == 0
            else && t.start == Split(tr[f].now)
                 && t.et == Diff(tr[f].now, tr[FirstDue(tr, f, n)].now)
                 && (t.output <==> !Fired(tr, f, n))
                 && (t.timing <==> !Fired(tr, f, n))
  }

  lemma TofStep(tr: Trace, t: TimerState)
    requires |tr| > 1 && PositivePresets(tr)
    requires TofAt(tr[..|tr| - 1], |tr| - 2, t)
    ensures var s := tr[|tr| - 1]; TofAt(tr, |tr| - 1, Set(TOF, t, s.input, s.preset, s.now))
  {
    hide MsDiff, Split, Fired;
    var n := |tr| - 1;
    if !tr[n].input {
      if !tr[n - 1].input {
        var f := RunStart(tr, n);
        RunStartPrefix(tr, n - 1);
        FiredPrefix(tr, f, n - 1);
        FiredStep(tr, f, n);
      } else {
        EdgeNotDue(tr, n);
      }
    }
  }

  lemma {:induction false} TofTrace(tr: Trace)
    requires tr != [] && PositivePresets(tr)
    ensures TofAt(tr, |tr| - 1, Run(TOF, tr))
  {
    if |tr| > 1 {
      hide TofAt;
      TofTrace(tr[..|tr| - 1]);
      TofStep(tr, Run(TOF, tr[..|tr| - 1]));
    } else {
      hide MsDiff, Split;
      assert Run(TOF, tr[..0]) == IDLE;
    }
  }

  // ------------------------------------------------------------------
  // TP
  // ------------------------------------------------------------------

  predicate Rises(tr: Trace, n: nat)
    requires n < |tr|
  {
    tr[n].input && (n == 0 || !tr[n - 1].input)
  }

  /** The last rising edge up to sample `n`, or -1. */
  function LastRise(tr: Trace, n: nat): (r: int)
    requires n < |tr|
    ensures -1 <= r <= n
    ensures r >= 0 ==> Rises(tr, r)
    ensures forall i :: r < i <= n ==> !Rises(tr, i)
  {
    if Rises(tr, n) then n else if n == 0 then -1 else LastRise(tr, n - 1)
  }

  lemma {:induction false} LastRisePrefix(tr: Trace, n: nat)
    requires n < |tr| - 1
    ensures LastRise(tr[..|tr| - 1], n) == LastRise(tr, n)
  {
    if n > 0 && !Rises(tr, n) {
      LastRisePrefix(tr, n - 1);
    }
  }

  /** The state of a pulse timer after sample `n`: every rising edge starts the pulse afresh, and the
      output is on exactly while no sample since the last one was due. */
  ghost predicate TpAt(tr: Trace, n: nat, t: TimerState)
    requires n < |tr|
  {
    && t.enabled && t.prev == tr[n].input
    && var r := LastRise(tr, n);
       if r < 0 then !t.output && !t.timing && t.et == 0
       else && t.start == Split(tr[r].now)
            && t.et == Diff(tr[r].now, tr[FirstDue(tr, r, n)].now)
            && (t.output <==> !Fired(tr, r, n))
            && (t.timing <==> !Fired(tr, r, n))
  }

  lemma TpStep(tr: Trace, t: TimerState)
    requires |tr| > 1 && PositivePresets(tr)
    requires TpAt(tr[..|tr| - 1], |tr| - 2, t)
    ensures var s := tr[|tr| - 1]; TpAt(tr, |tr| - 1, Set(TP, t, s.input, s.preset, s.now))
  {
    hide MsDiff, Split, Fired;
    var n := |tr| - 1;
    LastRisePrefix(tr, n - 1);
    if Rises(tr, n) {
      EdgeNotDue(tr, n);
    } else {
      var r := LastRise(tr, n);
      if r >= 0 {
        FiredPrefix(tr, r, n - 1);
        FiredStep(tr, r, n);
      }
    }
  }

  lemma {:induction false} TpTrace(tr: Trace)
    requires tr != [] && PositivePresets(tr)
    ensures TpAt(tr, |tr| - 1, Run(TP, tr))
  {
    if |tr| > 1 {
      hide TpAt;
      TpTrace(tr[..|tr| - 1]);
      TpStep(tr, Run(TP, tr[..|tr| - 1]));
    } else {
      TpFirst(tr);
    }
  }

  lemma TpFirst(tr: Trace)
    requires |tr| == 1 && PositivePresets(tr)
    ensures TpAt(tr, 0, Run(TP, tr))
  {
    hide MsDiff, Split;
    EdgeNotDue(tr, 0);
    assert Run(TP, tr[..0]) == IDLE;
  }

  // ------------------------------------------------------------------
  // TONR
  // ------------------------------------------------------------------

  predicate ConstantPreset(tr: Trace, p: nat) {
    forall i :: 0 <= i < |tr| ==> tr[i].preset == p
  }

  /** The clock differences between consecutive samples with the input true, added up. */
  function OnTime(tr: Trace, n: nat): nat
    requires n < |tr|
  {
    if n == 0 then 0
    else OnTime(tr, n - 1) + if tr[n - 1].input && tr[n].input then Diff(tr[n - 1].now, tr[n].now) else 0
  }

  predicate EverOn(tr: Trace, n: nat)
    requires n < |tr|
  {
    exists i :: 0 <= i <= n && tr[i].input
  }

  /** What the 32-bit sum of the differences reads. */
  function OnReading(tr: Trace, n: nat): (r: nat)
    requires n < |tr|
    ensures r < U32
  {
    OnTime(tr, n) % U32
  }

  /** The first sample at which the sum reads at least `p`, or `n`. */
  function Reached(tr: Trace, p: nat, n: nat): (i: nat)
    requires n < |tr|
    ensures i <= n
    ensures forall j :: 0 <= j < i ==> OnReading(tr, j) < p
    ensures i < n ==> OnReading(tr, i) >= p
  {
    if n == 0 then 0
    else
      var i := Reached(tr, p, n - 1);
      if OnReading(tr, i) >= p then i else n
  }

  lemma {:induction false} OnTimePrefix(tr: Trace, n: nat)
    requires n < |tr| - 1
    ensures OnTime(tr[..|tr| - 1], n) == OnTime(tr, n)
  {
    if n > 0 {
      OnTimePrefix(tr, n - 1);
    }
  }

  lemma {:induction false} ReachedPrefix(tr: Trace, p: nat, n: nat)
    requires n < |tr| - 1
    ensures Reached(tr[..|tr| - 1], p, n) == Reached(tr, p, n)
    ensures OnReading(tr[..|tr| - 1], Reached(tr, p, n)) == OnReading(tr, Reached(tr, p, n))
  {
    OnTimePrefix(tr, Reached(tr, p, n));
    if n > 0 {
      ReachedPrefix(tr, p, n - 1);
    }
  }

  /** The state of a retentive on-delay timer after sample `n`: it adds up the differences in 32 bits
      until the sum first reads at least the preset; the output comes on then and never goes off. */
  ghost predicate TonrAt(tr: Trace, p: nat, n: nat, t: TimerState)
    requires n < |tr|
  {
    && t.enabled && t.prev == tr[n].input
    && t.et == OnReading(tr, Reached(tr, p, n))
    && (t.output <==> EverOn(tr, n) && t.et >= p)
    && (tr[n].input ==> (t.timing <==> t.et < p) && (t.timing ==> t.start == Split(tr[n].now)))
  }

  /** One retentive step on numbers: `held` is the elapsed time shown before. */
  lemma TonrCore(t: TimerState, was: bool, last: nat, held: nat, ever: bool, input: bool, p: nat, now: nat)
    requires t.enabled && t.prev == was && t.et == held < U32 && (t.output <==> ever && held >= p)
    requires was ==> ever && (t.timing <==> held < p) && (t.timing ==> t.start == Split(last))
    ensures var s := Set(TONR, t, input, p, now);
            var step := if was && input then Diff(last, now) else 0;
            && s.enabled && s.prev == input
            && s.et == (if held >= p then held else (held + step) % U32)
            && (s.output <==> (ever || input) && s.et >= p)
            && (input ==> (s.timing <==> s.et < p) && (s.timing ==> s.start == Split(now)))
  {
    hide MsDiff, Split;
    NoTimeNoDiff(now);
  }

  /** Adding in 32 bits is adding and cutting to 32 bits. */
  lemma ReadingStep(tr: Trace, n: nat)
    requires 0 < n < |tr|
    ensures var step := if tr[n - 1].input && tr[n].input then Diff(tr[n - 1].now, tr[n].now) else 0;
            OnReading(tr, n) == (OnReading(tr, n - 1) + step) % U32
  {
    hide Diff;
    var step := if tr[n - 1].input && tr[n].input then Diff(tr[n - 1].now, tr[n].now) else 0;
    var total := OnTime(tr, n - 1);
    var q := total / U32;
    assert total + step == total % U32 + step + q * U32;
    ModReduce(total % U32 + step, q);
  }

  /** Where the sum stands after one more sample. */
  lemma ReachedStep(tr: Trace, p: nat, n: nat)
    requires 0 < n < |tr|
    ensures var before := OnReading(tr, Reached(tr, p, n - 1));
            var step := if tr[n - 1].input && tr[n].input then Diff(tr[n - 1].now, tr[n].now) else 0;
            OnReading(tr, Reached(tr, p, n)) == if before >= p then before else (before + step) % U32
  {
    hide Diff, OnReading;
    ReadingStep(tr, n);
  }

  lemma TonrStep(tr: Trace, p: nat, t: TimerState)
    requires |tr| > 1 && ConstantPreset(tr, p)
    requires TonrAt(tr[..|tr| - 1], p, |tr| - 2, t)
    ensures var s := tr[|tr| - 1]; TonrAt(tr, p, |tr| - 1, Set(TONR, t, s.input, s.preset, s.now))
  {
    hide MsDiff, Split, EverOn, Tonr, Diff, Reached, OnReading;
    var n := |tr| - 1;
    ReachedPrefix(tr, p, n - 1);
    ReachedStep(tr, p, n);
    EverOnStep(tr);
    EverOnNow(tr[..n]);
    TonrCore(t, tr[n - 1].input, tr[n - 1].now, OnReading(tr, Reached(tr, p, n - 1)), EverOn(tr[..n], n - 1), tr[n].input, p, tr[n].now);
  }

  lemma EverOnNow(tr: Trace)
    requires tr != []
    ensures tr[|tr| - 1].input ==> EverOn(tr, |tr| - 1)
  {
  }

  lemma EverOnStep(tr: Trace)
    requires |tr| > 1
    ensures EverOn(tr, |tr| - 1) <==> EverOn(tr[..|tr| - 1], |tr| - 2) || tr[|tr| - 1].input
  {
    var n := |tr| - 1;
    if EverOn(tr, n) {
      var i :| 0 <= i <= n && tr[i].input;
      assert i == n || tr[..n][i].input;
    }
    if EverOn(tr[..n], n - 1) {
      var i :| 0 <= i <= n - 1 && tr[..n][i].input;
      assert tr[i].input;
    }
  }

  /** On every trace with one preset, zero included. */
  lemma {:induction false} TonrTrace(tr: Trace, p: nat)
    requires tr != [] && ConstantPreset(tr, p)
    ensures TonrAt(tr, p, |tr| - 1, Run(TONR, tr))
  {
    if |tr| > 1 {
      hide TonrAt;
      TonrTrace(tr[..|tr| - 1], p);
      TonrStep(tr, p, Run(TONR, tr[..|tr| - 1]));
    } else {
      hide MsDiff, Split;
      NoTimeNoDiff(tr[0].now);
      assert Run(TONR, tr[..0]) == IDLE;
    }
  }
}
