/** The timers against IEC 61131-3: where the sampled code meets the standard's timing and exactly
    where it does not. */
module TimerIdeal {
  import opened Words
  import opened Timers
  import opened TimerTraces

  predicate Monotone(tr: Trace) {
    forall i, j :: 0 <= i <= j < |tr| ==> tr[i].now <= tr[j].now
  }

  function Elapsed(tr: Trace, r: nat, n: nat): int
    requires r < |tr| && n < |tr|
  {
    tr[n].now - tr[r].now
  }

  /** Some sample from `r` to `n` has a smaller sub-second part than sample `r`. */
  ghost predicate SomeBorrow(tr: Trace, r: nat, n: nat)
    requires r <= n < |tr|
  {
    exists i :: r <= i <= n && Borrows(tr[r].now, tr[i].now)
  }

  /** The largest elapsed time a borrowed reading does not wrap around at: about 39 hours. */
  const SAFE_SPAN: nat := U32 - BORROW_ERROR

  lemma DiffTrue(start: nat, now: nat)
    requires start <= now && now - start < U32 && !Borrows(start, now)
    ensures Diff(start, now) == now - start
  {
    DiffExactly(start, now);
  }

  /** A borrowed reading is far too large below 39 hours, and 39 hours short above. */
  lemma DiffBorrowed(start: nat, now: nat)
    requires start <= now && now - start < U32 && Borrows(start, now)
    ensures Diff(start, now) == if now - start < SAFE_SPAN then now - start + BORROW_ERROR else now - start - SAFE_SPAN
  {
    DiffExactly(start, now);
  }

  /** Without a borrow the code measures true time. */
  lemma FiredWithoutBorrow(tr: Trace, r: nat, n: nat, p: nat)
    requires r <= n < |tr| && Monotone(tr) && ConstantPreset(tr, p)
    requires Elapsed(tr, r, n) < U32 && !SomeBorrow(tr, r, n)
    ensures Fired(tr, r, n) <==> Elapsed(tr, r, n) >= p
  {
    hide Diff;
    forall i | r <= i <= n
      ensures Due(tr, r, i) <==> Elapsed(tr, r, i) >= p
    {
      assert tr[r].now <= tr[i].now <= tr[n].now;
      DiffTrue(tr[r].now, tr[i].now);
    }
    assert Due(tr, r, n) <==> Elapsed(tr, r, n) >= p;
  }

  /** A borrowed sample below 39 hours whose reading, too large by 48 days, reaches the preset. */
  predicate ReadsEarly(tr: Trace, r: nat, i: nat, p: nat)
    requires r < |tr| && i < |tr|
  {
    Borrows(tr[r].now, tr[i].now) && Elapsed(tr, r, i) < SAFE_SPAN && Elapsed(tr, r, i) + BORROW_ERROR >= p
  }

  /** A borrowed sample past the preset and 39 hours whose reading, too small, has not reached the preset. */
  predicate ReadsLate(tr: Trace, r: nat, i: nat, p: nat)
    requires r < |tr| && i < |tr|
  {
    Borrows(tr[r].now, tr[i].now) && p <= Elapsed(tr, r, i) && SAFE_SPAN <= Elapsed(tr, r, i) < SAFE_SPAN + p
  }

  /** Before the preset has passed, some sample reads early. */
  ghost predicate FiresEarly(tr: Trace, r: nat, n: nat, p: nat)
    requires r <= n < |tr|
  {
    Elapsed(tr, r, n) < p && exists i :: r <= i <= n && ReadsEarly(tr, r, i, p)
  }

  /** The preset has passed, but no sample read early and every sample past the preset reads late. */
  ghost predicate FiresLate(tr: Trace, r: nat, n: nat, p: nat)
    requires r <= n < |tr|
  {
    Elapsed(tr, r, n) >= p &&
    forall i :: r <= i <= n ==> !ReadsEarly(tr, r, i, p) && (Elapsed(tr, r, i) >= p ==> ReadsLate(tr, r, i, p))
  }

  lemma DueIff(tr: Trace, r: nat, i: nat, p: nat)
    requires r < |tr| && i < |tr| && tr[i].preset == p && 0 <= Elapsed(tr, r, i) < U32
    ensures Due(tr, r, i) <==> ReadsEarly(tr, r, i, p) || (Elapsed(tr, r, i) >= p && !ReadsLate(tr, r, i, p))
  {
    hide Diff, Borrows;
    if Borrows(tr[r].now, tr[i].now) {
      DiffBorrowed(tr[r].now, tr[i].now);
    } else {
      DiffTrue(tr[r].now, tr[i].now);
    }
  }

  /** For every preset and every elapsed time below 2^32: some sample was due exactly when the preset has
      passed, unless the timer fires early or late. */
  lemma FiredExactly(tr: Trace, r: nat, n: nat, p: nat)
    requires r <= n < |tr| && Monotone(tr) && ConstantPreset(tr, p) && Elapsed(tr, r, n) < U32
    ensures (Fired(tr, r, n) <==> Elapsed(tr, r, n) >= p) <==> !FiresEarly(tr, r, n, p) && !FiresLate(tr, r, n, p)
  {
    forall i | r <= i <= n
      ensures Elapsed(tr, r, i) <= Elapsed(tr, r, n)
      ensures Due(tr, r, i) <==> ReadsEarly(tr, r, i, p) || (Elapsed(tr, r, i) >= p && !ReadsLate(tr, r, i, p))
    {
      assert tr[r].now <= tr[i].now <= tr[n].now;
      DueIff(tr, r, i, p);
    }
    hide Due, ReadsEarly, ReadsLate, Elapsed;
    if FiresEarly(tr, r, n, p) {
      var i :| r <= i <= n && ReadsEarly(tr, r, i, p);
      assert Due(tr, r, i);
    }
    if Fired(tr, r, n) {
      var i :| r <= i <= n && Due(tr, r, i);
      assert Elapsed(tr, r, i) <= Elapsed(tr, r, n);
    }
    if Elapsed(tr, r, n) >= p && !Fired(tr, r, n) {
      forall i | r <= i <= n
        ensures !ReadsEarly(tr, r, i, p) && (Elapsed(tr, r, i) >= p ==> ReadsLate(tr, r, i, p))
      {
        assert !Due(tr, r, i);
      }
    }
  }

  /** For presets up to 48 days and less than 39 hours: some sample was due exactly when the preset has
      passed or a borrow has happened. */
  lemma FiredSoon(tr: Trace, r: nat, n: nat, p: nat)
    requires r <= n < |tr| && Monotone(tr) && ConstantPreset(tr, p)
    requires Elapsed(tr, r, n) < SAFE_SPAN && p <= BORROW_ERROR
    ensures Fired(tr, r, n) <==> Elapsed(tr, r, n) >= p || SomeBorrow(tr, r, n)
  {
    hide Diff;
    forall i | r <= i <= n
      ensures Due(tr, r, i) <==> Elapsed(tr, r, i) >= p || Borrows(tr[r].now, tr[i].now)
    {
      assert tr[r].now <= tr[i].now <= tr[n].now;
      DueIff(tr, r, i, p);
    }
    assert Due(tr, r, n) <==> Elapsed(tr, r, n) >= p || Borrows(tr[r].now, tr[n].now);
    if SomeBorrow(tr, r, n) {
      var i :| r <= i <= n && Borrows(tr[r].now, tr[i].now);
      assert Due(tr, r, i);
    }
  }

  /** One sample between the preset and 39 hours settles it, however long the run goes on. */
  lemma FiredForGood(tr: Trace, r: nat, m: nat, n: nat, p: nat)
    requires r <= m <= n < |tr| && ConstantPreset(tr, p) && p <= Elapsed(tr, r, m) < SAFE_SPAN
    ensures Fired(tr, r, n)
  {
    DueIff(tr, r, m, p);
    assert Due(tr, r, m);
  }

  // ------------------------------------------------------------------
  // The timing diagrams of the standard, on samples
  // ------------------------------------------------------------------

  /** TON: on after the input has been true for the preset. */
  predicate OnDelay(tr: Trace, p: nat, n: nat)
    requires n < |tr|
  {
    tr[n].input && Elapsed(tr, RunStart(tr, n), n) >= p
  }

  /** TOF: off after the input has been false for the preset. */
  predicate OffDelay(tr: Trace, p: nat, n: nat)
    requires n < |tr|
  {
    tr[n].input || (RunStart(tr, n) > 0 && Elapsed(tr, RunStart(tr, n), n) < p)
  }

  /** A pulse of the length of the preset after the last rising edge. */
  predicate Pulse(tr: Trace, p: nat, n: nat)
    requires n < |tr|
  {
    LastRise(tr, n) >= 0 && Elapsed(tr, LastRise(tr, n), n) < p
  }

  /** The sample the timing of the current sample counts from. */
  function Origin(k: Kind, tr: Trace, n: nat): (r: int)
    requires n < |tr|
    ensures -1 <= r <= n
  {
    if k == TP then LastRise(tr, n) else RunStart(tr, n)
  }

  predicate Ideal(k: Kind, tr: Trace, p: nat, n: nat)
    requires n < |tr|
  {
    match k
    case TP => Pulse(tr, p, n)
    case TON => OnDelay(tr, p, n)
    case TONR => OnDelay(tr, p, n)
    case TOF => OffDelay(tr, p, n)
    case TOFR => OffDelay(tr, p, n)
  }

  /** On every trace without a borrow TON, TOF and TP follow the timing diagrams. */
  lemma MeetsStandard(k: Kind, tr: Trace, p: nat)
    requires k == TON || k == TOF || k == TP
    requires tr != [] && Monotone(tr) && p > 0 && ConstantPreset(tr, p)
    requires var r := Origin(k, tr, |tr| - 1); r >= 0 ==> Elapsed(tr, r, |tr| - 1) < U32 && !SomeBorrow(tr, r, |tr| - 1)
    ensures Run(k, tr).output <==> Ideal(k, tr, p, |tr| - 1)
  {
    hide Fired, SomeBorrow, FirstDue;
    var n := |tr| - 1;
    var r := Origin(k, tr, n);
    if r >= 0 {
      FiredWithoutBorrow(tr, r, n, p);
    }
    match k
    case TON => TonTrace(tr);
    case TOF => TofTrace(tr);
    case TP => TpTrace(tr);
  }

  /** The output depends on the time since the origin. */
  predicate Timed(k: Kind, tr: Trace)
    requires tr != []
  {
    var n := |tr| - 1;
    Origin(k, tr, n) >= 0 && (k == TON ==> tr[n].input) && (k == TOF ==> !tr[n].input && Origin(k, tr, n) > 0)
  }

  /** For every preset and every elapsed time below 2^32: the output is what the timing diagram says if
      and only if it does not depend on time, or the timer fires neither early nor late. */
  lemma MeetsStandardIff(k: Kind, tr: Trace, p: nat)
    requires k == TON || k == TOF || k == TP
    requires tr != [] && Monotone(tr) && p > 0 && ConstantPreset(tr, p)
    requires var r := Origin(k, tr, |tr| - 1); r >= 0 ==> Elapsed(tr, r, |tr| - 1) < U32
    ensures var n, r := |tr| - 1, Origin(k, tr, |tr| - 1);
            (Run(k, tr).output <==> Ideal(k, tr, p, n)) <==>
            (Timed(k, tr) ==> !FiresEarly(tr, r, n, p) && !FiresLate(tr, r, n, p))
  {
    hide Fired, SomeBorrow, FirstDue, FiresEarly, FiresLate;
    var n := |tr| - 1;
    var r := Origin(k, tr, n);
    if r >= 0 {
      FiredExactly(tr, r, n, p);
    }
    match k
    case TON => TonTrace(tr);
    case TOF => TofTrace(tr);
    case TP => TpTrace(tr);
  }

  /** The practical case: once one sample has fallen between the preset and 39 hours after the origin,
      the output is right for as long as the run goes on. */
  lemma MeetsStandardForGood(k: Kind, tr: Trace, p: nat, m: nat)
    requires k == TON || k == TOF || k == TP
    requires tr != [] && Monotone(tr) && p > 0 && ConstantPreset(tr, p)
    requires var r := Origin(k, tr, |tr| - 1); 0 <= r <= m < |tr| && p <= Elapsed(tr, r, m) < SAFE_SPAN
    ensures Run(k, tr).output <==> Ideal(k, tr, p, |tr| - 1)
  {
    hide Fired, SomeBorrow, FirstDue, Run, Diff, Borrows;
    var n := |tr| - 1;
    var r := Origin(k, tr, n);
    FiredForGood(tr, r, m, n, p);
    assert tr[m].now <= tr[n].now;
    match k
    case TON => TonTrace(tr);
    case TOF => TofTrace(tr);
    case TP => TpTrace(tr);
  }

  /** For presets up to 48 days and less than 39 hours after the origin the condition is short: no borrow
      since the origin, or the preset has passed anyway. */
  lemma MeetsStandardSoon(k: Kind, tr: Trace, p: nat)
    requires k == TON || k == TOF || k == TP
    requires tr != [] && Monotone(tr) && 0 < p <= BORROW_ERROR && ConstantPreset(tr, p)
    requires var r := Origin(k, tr, |tr| - 1); r >= 0 ==> Elapsed(tr, r, |tr| - 1) < SAFE_SPAN
    ensures var n, r := |tr| - 1, Origin(k, tr, |tr| - 1);
            (Run(k, tr).output <==> Ideal(k, tr, p, n)) <==>
            (Timed(k, tr) ==> Elapsed(tr, r, n) >= p || !SomeBorrow(tr, r, n))
  {
    hide Fired, SomeBorrow, FirstDue;
    var n := |tr| - 1;
    var r := Origin(k, tr, n);
    if r >= 0 {
      FiredSoon(tr, r, n, p);
    }
    match k
    case TON => TonTrace(tr);
    case TOF => TofTrace(tr);
    case TP => TpTrace(tr);
  }

  /** An on-delay of half a second that fires after a tenth: the second boundary lies in between. */
  lemma TonFiresEarly()
    ensures var tr := [Sample(true, 500, 900), Sample(true, 500, 1000)];
            Run(TON, tr).output && !OnDelay(tr, 500, 1)
  {
    var tr := [Sample(true, 500, 900), Sample(true, 500, 1000)];
    TonTrace(tr);
    EarlyDiff();
    hide Run, Diff;
    assert RunStart(tr, 0) == 0;
    assert Due(tr, 0, 1);
  }

  /** And one that is still off after 39 hours: the only sample since the rise reads 390 ms. */
  lemma TonFiresLate()
    ensures var tr := [Sample(true, 1000, 999), Sample(true, 1000, 140464000)];
            !Run(TON, tr).output && OnDelay(tr, 1000, 1)
  {
    var tr := [Sample(true, 1000, 999), Sample(true, 1000, 140464000)];
    TonTrace(tr);
    LateDiff();
    hide Run, Diff;
    assert RunStart(tr, 0) == 0 && RunStart(tr, 1) == 0;
    if Fired(tr, 0, 1) {
      FiredStep(tr, 0, 1);
      EdgeNotDue(tr, 0);
    }
  }

  lemma LateDiff()
    ensures Diff(999, 140464000) == 390
  {
    hide Diff, Measured;
    DiffExactly(999, 140464000);
  }

  lemma EarlyDiff()
    ensures Diff(900, 1000) >= 500
  {
    hide Diff, Measured;
    DiffExactly(900, 1000);
  }

  // ------------------------------------------------------------------
  // TOFR and TOF
  // ------------------------------------------------------------------

  /** What a program can see of a timer. */
  function Shown(t: TimerState): (bool, nat) {
    (t.output, t.et)
  }

  /** Borrows add up: from `a` over `b` to `c` as often as from `a` to `c`. */
  predicate BorrowsAdd(a: nat, b: nat, c: nat) {
    Bit(a, c) == Bit(a, b) + Bit(b, c)
  }

  /** Every sample from `f` to `n` measures less than its preset. */
  predicate StillRunning(tr: Trace, f: nat, n: nat)
    requires f <= n < |tr|
  {
    forall i :: f <= i <= n ==> Measured(tr[f].now, tr[i].now) < tr[i].preset
  }

  /** If the off-delay still runs at the sample before `n`, the borrows since the fall add up. */
  predicate TelescopesAt(tr: Trace, n: nat)
    requires n < |tr|
  {
    var f := RunStart(tr, n);
    !tr[n].input && 0 < f < n && StillRunning(tr, f, n - 1) ==> BorrowsAdd(tr[f].now, tr[n - 1].now, tr[n].now)
  }

  lemma StillRunningIff(tr: Trace, f: nat, n: nat)
    requires f <= n < |tr|
    ensures StillRunning(tr, f, n) <==> !Fired(tr, f, n)
  {
    hide Diff, Measured;
    forall i | f <= i <= n
      ensures Due(tr, f, i) <==> Measured(tr[f].now, tr[i].now) >= tr[i].preset
    {
      DiffExactly(tr[f].now, tr[i].now);
    }
    if !StillRunning(tr, f, n) {
      var i :| f <= i <= n && Measured(tr[f].now, tr[i].now) >= tr[i].preset;
      assert Due(tr, f, i);
    }
  }

  lemma ErrorMultiples(x: int, k: int)
    requires -2 <= k <= 1
    ensures x % U32 == (x + BORROW_ERROR * k) % U32 <==> k == 0
  {
  }

  lemma ModSum(x: int, y: int)
    ensures (x % U32 + y % U32) % U32 == (x + y) % U32
  {
    var q, r := x / U32, y / U32;
    assert x + y == x % U32 + y % U32 + (q + r) * U32;
    ModReduce(x % U32 + y % U32, q + r);
  }

  /** Two clock differences add up to the third exactly when their borrows do. */
  lemma DifferencesAddIff(a: nat, b: nat, c: nat)
    ensures Diff(a, c) == (Diff(a, b) + Diff(b, c)) % U32 <==> BorrowsAdd(a, b, c)
  {
    hide Diff, Borrows;
    DiffExactly(a, b);
    DiffExactly(b, c);
    DiffExactly(a, c);
    var x: int, y: int, z: int := Bit(a, b), Bit(b, c), Bit(a, c);
    ModSum(b - a + BORROW_ERROR * x, c - b + BORROW_ERROR * y);
    ErrorMultiples(c - a + BORROW_ERROR * (x + y), z - x - y);
  }

  predicate Telescopes(tr: Trace) {
    forall n :: 0 <= n < |tr| ==> TelescopesAt(tr, n)
  }

  lemma TelescopesPrefix(tr: Trace, n: nat)
    requires n < |tr| - 1
    ensures TelescopesAt(tr[..|tr| - 1], n) <==> TelescopesAt(tr, n)
  {
    hide Measured;
    RunStartPrefix(tr, n);
  }

  lemma TelescopesStep(tr: Trace)
    requires tr != []
    ensures Telescopes(tr) <==> Telescopes(tr[..|tr| - 1]) && TelescopesAt(tr, |tr| - 1)
  {
    var before := tr[..|tr| - 1];
    forall n | 0 <= n < |tr| - 1
      ensures TelescopesAt(before, n) <==> TelescopesAt(tr, n)
    {
      TelescopesPrefix(tr, n);
    }
    hide TelescopesAt;
    if Telescopes(before) && TelescopesAt(tr, |tr| - 1) {
      forall n | 0 <= n < |tr|
        ensures TelescopesAt(tr, n)
      {
        assert n == |tr| - 1 || TelescopesAt(before, n);
      }
    }
    if Telescopes(tr) {
      forall n | 0 <= n < |before|
        ensures TelescopesAt(before, n)
      {
        assert TelescopesAt(tr, n);
      }
      assert TelescopesAt(tr, |tr| - 1);
    }
  }

  /** The retentive off-delay timer `b` looks like the off-delay timer `a`; it has moved its start to the last sample. */
  predicate LooksLike(a: TimerState, b: TimerState, now: nat) {
    b.enabled && a.enabled && b.output == a.output && b.et == a.et && b.timing == a.timing && b.prev == a.prev &&
    (b.timing ==> b.start == Split(now))
  }

  /** The three kinds of samples on both timers: input on, a falling edge, and input still off. */
  lemma TofrOn(a: TimerState, b: TimerState, last: nat, p: nat, now: nat)
    requires LooksLike(a, b, last) && p > 0
    ensures LooksLike(Set(TOF, a, true, p, now), Set(TOFR, b, true, p, now), now)
  {
    hide MsDiff, Split;
  }

  lemma TofrFalls(a: TimerState, b: TimerState, last: nat, p: nat, now: nat)
    requires LooksLike(a, b, last) && a.prev && a.et == 0 && p > 0
    ensures LooksLike(Set(TOF, a, false, p, now), Set(TOFR, b, false, p, now), now)
  {
    hide MsDiff, Split;
    NoTimeNoDiff(now);
  }

  lemma TofrOff(a: TimerState, b: TimerState, last: nat, p: nat, now: nat)
    requires LooksLike(a, b, last) && !a.prev && p > 0
    ensures var a', b' := Set(TOF, a, false, p, now), Set(TOFR, b, false, p, now);
            if a.timing && MsDiff(a.start, Split(now)) != (a.et + Diff(last, now)) % U32 then a'.et != b'.et
            else LooksLike(a', b', now)
  {
    hide MsDiff, Split;
  }

  /** While the off-delay runs, the borrows add up exactly when the step is the sum. */
  lemma TofrRunning(tr: Trace, a: TimerState)
    requires |tr| > 1 && !tr[|tr| - 1].input && !tr[|tr| - 2].input
    requires TofAt(tr[..|tr| - 1], |tr| - 2, a)
    ensures var n := |tr| - 1;
            TelescopesAt(tr, n) <==>
            (a.timing ==> MsDiff(a.start, Split(tr[n].now)) == (a.et + Diff(tr[n - 1].now, tr[n].now)) % U32)
  {
    hide MsDiff, Split, Fired, StillRunning, BorrowsAdd;
    var n := |tr| - 1;
    var f := RunStart(tr, n);
    RunStartPrefix(tr, n - 1);
    if f > 0 {
      FiredPrefix(tr, f, n - 1);
      FiredAt(tr, f, n - 1);
      StillRunningIff(tr, f, n - 1);
      DifferencesAddIff(tr[f].now, tr[n - 1].now, tr[n].now);
    }
  }

  /** One sample on both timers: they stay alike exactly if the borrows add up. */
  lemma TofrStep(tr: Trace, a: TimerState, b: TimerState)
    requires |tr| > 1 && PositivePresets(tr)
    requires TofAt(tr[..|tr| - 1], |tr| - 2, a) && LooksLike(a, b, tr[|tr| - 2].now)
    ensures var s := tr[|tr| - 1];
            var a' := Set(TOF, a, s.input, s.preset, s.now);
            var b' := Set(TOFR, b, s.input, s.preset, s.now);
            (TelescopesAt(tr, |tr| - 1) ==> LooksLike(a', b', s.now)) &&
            (!TelescopesAt(tr, |tr| - 1) ==> a'.et != b'.et)
  {
    hide MsDiff, Split, Fired, FirstDue, Set, LooksLike;
    var n := |tr| - 1;
    var s, last := tr[n], tr[n - 1].now;
    if s.input {
      TofrOn(a, b, last, s.preset, s.now);
    } else if tr[n - 1].input {
      TofrFalls(a, b, last, s.preset, s.now);
    } else {
      hide TelescopesAt;
      TofrRunning(tr, a);
      TofrOff(a, b, last, s.preset, s.now);
    }
  }

  lemma TofrFirst(tr: Trace)
    requires |tr| == 1 && PositivePresets(tr)
    ensures LooksLike(Run(TOF, tr), Run(TOFR, tr), tr[0].now)
  {
    hide MsDiff, Split;
    assert Run(TOF, tr[..0]) == Run(TOFR, tr[..0]) == IDLE;
  }

  lemma {:induction false} TofrFollows(tr: Trace)
    requires tr != [] && PositivePresets(tr) && Telescopes(tr)
    ensures LooksLike(Run(TOF, tr), Run(TOFR, tr), tr[|tr| - 1].now)
  {
    hide LooksLike, TofAt, TelescopesAt, Update;
    if |tr| > 1 {
      TelescopesStep(tr);
      TofrFollows(tr[..|tr| - 1]);
      TofTrace(tr[..|tr| - 1]);
      TofrStep(tr, Run(TOF, tr[..|tr| - 1]), Run(TOFR, tr[..|tr| - 1]));
    } else {
      TofrFirst(tr);
    }
  }

  /** Output and elapsed time of the two timers agree throughout the trace. */
  predicate TofrAgrees(tr: Trace) {
    forall m :: 0 <= m <= |tr| ==> Shown(Run(TOF, tr[..m])) == Shown(Run(TOFR, tr[..m]))
  }

  /** The retentive off-delay timer is observably the off-delay timer if and only if, at every sample of
      a running off-delay, the borrows since the fall add up: a condition on the sample times alone. */
  lemma {:induction false} TofrIsTof(tr: Trace)
    requires PositivePresets(tr)
    ensures TofrAgrees(tr) <==> Telescopes(tr)
  {
    hide TelescopesAt, Update, Telescopes;
    if tr == [] {
      assert Telescopes(tr) by { NothingTelescopes(tr); }
      assert tr[..0] == [];
    } else {
      var n := |tr| - 1;
      TofrIsTof(tr[..n]);
      TelescopesStep(tr);
      assert tr[..n + 1] == tr;
      assert forall m :: 0 <= m <= n ==> tr[..n][..m] == tr[..m];
      assert TofrAgrees(tr) <==> TofrAgrees(tr[..n]) && Shown(Run(TOF, tr)) == Shown(Run(TOFR, tr));
      if Telescopes(tr[..n]) {
        TofrLast(tr);
      }
    }
  }

  lemma NothingTelescopes(tr: Trace)
    requires tr == []
    ensures Telescopes(tr)
  {
  }

  lemma TofrLast(tr: Trace)
    requires tr != [] && PositivePresets(tr) && Telescopes(tr[..|tr| - 1])
    ensures Shown(Run(TOF, tr)) == Shown(Run(TOFR, tr)) <==> TelescopesAt(tr, |tr| - 1)
  {
    hide TofAt, Update, Telescopes;
    if |tr| > 1 {
      TofrFollows(tr[..|tr| - 1]);
      TofTrace(tr[..|tr| - 1]);
      TofrStep(tr, Run(TOF, tr[..|tr| - 1]), Run(TOFR, tr[..|tr| - 1]));
    } else {
      TofrFirst(tr);
    }
  }

  /** No sample of the run that ends at `n` has a larger sub-second part than sample `n`. */
  predicate NoBorrowInRun(tr: Trace, n: nat)
    requires n < |tr|
  {
    forall i :: RunStart(tr, n) <= i <= n ==> !Borrows(tr[i].now, tr[n].now)
  }

  lemma NoBorrowHere(tr: Trace, n: nat)
    requires 0 < n < |tr| && RunStart(tr, n) < n && NoBorrowInRun(tr, n) && NoBorrowInRun(tr, n - 1)
    ensures TelescopesAt(tr, n)
  {
    var f := RunStart(tr, n);
    assert RunStart(tr, n - 1) == f;
    hide Borrows, RunStart, StillRunning;
  }

  /** Without borrows inside the runs of equal inputs they do. */
  lemma NoBorrowTelescopes(tr: Trace)
    requires forall n :: 0 <= n < |tr| ==> NoBorrowInRun(tr, n)
    ensures Telescopes(tr)
  {
    hide NoBorrowInRun, Diff, FirstDue;
    forall n | 0 <= n < |tr|
      ensures TelescopesAt(tr, n)
    {
      if RunStart(tr, n) < n {
        NoBorrowHere(tr, n);
      }
    }
  }

  lemma BoundaryReadings()
    ensures Measured(500, 500) == 0 && Measured(500, 900) == 400 && Measured(500, 1600) == 1100
    ensures !BorrowsAdd(500, 900, 1600)
  {
  }

  lemma LastRun(tr: Trace)
    requires |tr| == 4 && tr[0].input && !tr[1].input && !tr[2].input && !tr[3].input
    ensures RunStart(tr, 3) == 1
  {
    assert RunStart(tr, 1) == 1;
    assert RunStart(tr, 2) == 1;
  }

  /** An off-delay across a second boundary: TOF stays on, TOFR adds a borrowed step and shows something else. */
  lemma TofrDiffers()
    ensures var tr := [Sample(true, 5000, 100), Sample(false, 5000, 500), Sample(false, 5000, 900), Sample(false, 5000, 1600)];
            Run(TOF, tr).output && !TofrAgrees(tr)
  {
    hide Run, Measured, BorrowsAdd, RunStart, FirstDue, Diff, TofrAgrees;
    var tr := [Sample(true, 5000, 100), Sample(false, 5000, 500), Sample(false, 5000, 900), Sample(false, 5000, 1600)];
    LastRun(tr);
    BoundaryReadings();
    assert StillRunning(tr, 1, 2) && StillRunning(tr, 1, 3);
    StillRunningIff(tr, 1, 3);
    TofTrace(tr);
    assert !TelescopesAt(tr, 3);
    TofrIsTof(tr);
  }

  // ------------------------------------------------------------------
  // TP and retriggering
  // ------------------------------------------------------------------

  /** The pulse timer of the standard: a rising edge during a pulse is ignored. */
  function StrictTp(t: TimerState, now: nat): TimerState {
    if !t.enabled || t.preset == 0 then t.(output := false, et := 0)
    else
      var running := t.timing && MsDiff(t.start, Split(now)) < t.preset;
      var u := if t.input && !t.prev && !running then Started(t, now).(output := true) else t;
      var s :=
        if u.timing then
          var et := MsDiff(u.start, Split(now));
          if et >= u.preset then u.(et := et, output := false, timing := false) else u.(et := et)
        else u;
      s.(prev := t.input)
  }

  function RunStrict(tr: Trace): TimerState {
    if tr == [] then IDLE
    else
      var last := tr[|tr| - 1];
      StrictTp(RunStrict(tr[..|tr| - 1]).(input := last.input, preset := last.preset, enabled := true), last.now)
  }

  /** A rising edge at a later instant while the pulse before it still runs. */
  predicate RetriggersAt(tr: Trace, n: nat)
    requires n < |tr|
  {
    n > 0 && Rises(tr, n) &&
    var r := LastRise(tr, n - 1);
    r >= 0 && !Due(tr, r, FirstDue(tr, r, n - 1)) && !Due(tr, r, n) && tr[r].now < tr[n].now
  }

  predicate Retriggers(tr: Trace) {
    exists n :: 0 <= n < |tr| && RetriggersAt(tr, n)
  }

  predicate StrictAgrees(tr: Trace) {
    forall m :: 0 <= m <= |tr| ==> Shown(Run(TP, tr[..m])) == Shown(RunStrict(tr[..m]))
  }

  /** Where an edge retriggers, the clock tells the two edges apart. It does not only when the edges lie a
      multiple of 2^32 ms apart, or 39 hours more than that with a borrow. */
  predicate EdgesApart(tr: Trace) {
    Monotone(tr) &&
    forall n :: 0 <= n < |tr| && RetriggersAt(tr, n) ==> Measured(tr[LastRise(tr, n - 1)].now, tr[n].now) != 0
  }

  /** So it does whenever no retriggered pulse had run for 39 hours. */
  lemma ShortPulsesApart(tr: Trace)
    requires Monotone(tr)
    requires forall n :: 0 <= n < |tr| && RetriggersAt(tr, n) ==> Elapsed(tr, LastRise(tr, n - 1), n) < SAFE_SPAN
    ensures EdgesApart(tr)
  {
    hide Measured;
    forall n | 0 <= n < |tr| && RetriggersAt(tr, n)
      ensures Measured(tr[LastRise(tr, n - 1)].now, tr[n].now) != 0
    {
      LaterDiffers(tr[LastRise(tr, n - 1)].now, tr[n].now);
    }
  }

  lemma EdgesApartPrefix(tr: Trace)
    requires tr != [] && EdgesApart(tr)
    ensures EdgesApart(tr[..|tr| - 1])
  {
    hide Measured, FirstDue, Due, LastRise;
    var before := tr[..|tr| - 1];
    forall n | 0 <= n < |before| && RetriggersAt(before, n)
      ensures n > 0 && LastRise(before, n - 1) >= 0 && Measured(before[LastRise(before, n - 1)].now, before[n].now) != 0
    {
      RetriggersPrefix(tr, n);
      RetriggersHasRise(tr, n);
      LastRisePrefix(tr, n - 1);
    }
    forall i, j | 0 <= i <= j < |before|
      ensures before[i].now <= before[j].now
    {
      assert tr[i].now <= tr[j].now;
    }
  }

  lemma RetriggersHasRise(tr: Trace, n: nat)
    requires n < |tr| && RetriggersAt(tr, n)
    ensures n > 0 && LastRise(tr, n - 1) >= 0
  {
  }

  lemma RetriggersStep(tr: Trace)
    requires tr != []
    ensures Retriggers(tr) <==> Retriggers(tr[..|tr| - 1]) || RetriggersAt(tr, |tr| - 1)
  {
    var before := tr[..|tr| - 1];
    forall n | 0 <= n < |tr| - 1
      ensures RetriggersAt(before, n) <==> RetriggersAt(tr, n)
    {
      RetriggersPrefix(tr, n);
    }
    hide RetriggersAt;
    if Retriggers(tr) {
      var n :| 0 <= n < |tr| && RetriggersAt(tr, n);
      assert n == |tr| - 1 || RetriggersAt(before, n);
    }
    if Retriggers(before) {
      var n :| 0 <= n < |before| && RetriggersAt(before, n);
      assert RetriggersAt(tr, n);
    }
    if RetriggersAt(tr, |tr| - 1) {
      assert Retriggers(tr);
    }
  }

  lemma RetriggersPrefix(tr: Trace, n: nat)
    requires n < |tr| - 1
    ensures RetriggersAt(tr[..|tr| - 1], n) <==> RetriggersAt(tr, n)
  {
    hide Diff;
    if n > 0 {
      LastRisePrefix(tr, n - 1);
      if LastRise(tr, n - 1) >= 0 {
        FirstDuePrefix(tr, LastRise(tr, n - 1), n - 1);
      }
    }
  }

  lemma LaterDiffers(start: nat, now: nat)
    requires start < now && now - start < SAFE_SPAN
    ensures Measured(start, now) != 0
  {
  }

  /** One call on both pulse timers: they differ at most on a rising edge during a running pulse. */
  lemma StrictCall(t: TimerState, input: bool, p: nat, now: nat)
    requires p > 0 && (t.timing ==> t.output)
    ensures var a, b := Set(TP, t, input, p, now), StrictTp(t.(input := input, preset := p, enabled := true), now);
            if input && !t.prev && t.timing && MsDiff(t.start, Split(now)) < p then
              a.et == 0 && b.et == MsDiff(t.start, Split(now)) && (t.start == Split(now) ==> a == b)
            else a == b
  {
    hide MsDiff, Split;
    NoTimeNoDiff(now);
  }

  /** When a rising edge retriggers, in terms of the state before it. */
  lemma RetriggersWhen(tr: Trace, t: TimerState)
    requires |tr| > 1 && Monotone(tr)
    requires TpAt(tr[..|tr| - 1], |tr| - 2, t)
    ensures var s := tr[|tr| - 1];
            && (t.timing ==> t.output)
            && (RetriggersAt(tr, |tr| - 1) <==>
                s.input && !t.prev && t.timing && MsDiff(t.start, Split(s.now)) < s.preset && t.start != Split(s.now))
  {
    hide MsDiff, Split, Fired;
    var n := |tr| - 1;
    LastRisePrefix(tr, n - 1);
    var r := LastRise(tr, n - 1);
    if r >= 0 {
      FiredPrefix(tr, r, n - 1);
      FiredAt(tr, r, n - 1);
      if Split(tr[r].now) == Split(tr[n].now) {
        SplitInjective(tr[r].now, tr[n].now);
      }
    }
  }

  /** The reading that a retriggered pulse throws away is not zero. */
  lemma RetriggerLoses(tr: Trace, t: TimerState)
    requires |tr| > 1 && EdgesApart(tr) && RetriggersAt(tr, |tr| - 1)
    requires TpAt(tr[..|tr| - 1], |tr| - 2, t)
    ensures MsDiff(t.start, Split(tr[|tr| - 1].now)) != 0
  {
    hide MsDiff, Split, Fired, Measured, FirstDue;
    var n := |tr| - 1;
    RetriggersHasRise(tr, n);
    LastRisePrefix(tr, n - 1);
    DiffExactly(tr[LastRise(tr, n - 1)].now, tr[n].now);
  }

  lemma SplitInjective(a: nat, b: nat)
    requires Split(a) == Split(b)
    ensures a == b
  {
  }

  lemma StrictStep(tr: Trace, t: TimerState)
    requires |tr| > 1 && PositivePresets(tr) && EdgesApart(tr)
    requires TpAt(tr[..|tr| - 1], |tr| - 2, t)
    ensures var s := tr[|tr| - 1];
            var a := Set(TP, t, s.input, s.preset, s.now);
            var b := StrictTp(t.(input := s.input, preset := s.preset, enabled := true), s.now);
            if RetriggersAt(tr, |tr| - 1) then a.et != b.et else a == b
  {
    hide MsDiff, Split, Set, StrictTp, RetriggersAt, TpAt;
    var s := tr[|tr| - 1];
    RetriggersWhen(tr, t);
    if RetriggersAt(tr, |tr| - 1) {
      RetriggerLoses(tr, t);
    }
    StrictCall(t, s.input, s.preset, s.now);
  }

  lemma {:induction false} StrictFollows(tr: Trace)
    requires PositivePresets(tr) && EdgesApart(tr) && !Retriggers(tr)
    ensures Run(TP, tr) == RunStrict(tr)
  {
    hide TpAt, RetriggersAt, Retriggers, EdgesApart, StrictTp, Update;
    if tr != [] {
      RetriggersStep(tr);
      EdgesApartPrefix(tr);
      StrictFollows(tr[..|tr| - 1]);
      if |tr| > 1 {
        TpTrace(tr[..|tr| - 1]);
        StrictStep(tr, Run(TP, tr[..|tr| - 1]));
      } else {
        StrictFirst(tr);
      }
    }
  }

  lemma StrictFirst(tr: Trace)
    requires |tr| == 1
    ensures Run(TP, tr) == RunStrict(tr)
  {
    hide MsDiff, Split;
    assert Run(TP, tr[..0]) == RunStrict(tr[..0]) == IDLE;
  }

  /** The pulse timer shows what the standard's non-retriggerable one shows, sample by sample, if and
      only if no rising edge comes later during a running pulse. */
  lemma {:induction false} StrictIffNoRetrigger(tr: Trace)
    requires PositivePresets(tr) && EdgesApart(tr)
    ensures StrictAgrees(tr) <==> !Retriggers(tr)
  {
    hide RetriggersAt, Retriggers, EdgesApart, StrictTp, Update, TpAt;
    if tr == [] {
      assert !Retriggers(tr) by { NothingRetriggers(tr); }
      assert tr[..0] == [];
    } else {
      var n := |tr| - 1;
      EdgesApartPrefix(tr);
      StrictIffNoRetrigger(tr[..n]);
      RetriggersStep(tr);
      assert tr[..n + 1] == tr;
      assert forall m :: 0 <= m <= n ==> tr[..n][..m] == tr[..m];
      assert StrictAgrees(tr) <==> StrictAgrees(tr[..n]) && Shown(Run(TP, tr)) == Shown(RunStrict(tr));
      if !Retriggers(tr[..n]) {
        StrictFollows(tr[..n]);
        if n > 0 {
          TpTrace(tr[..n]);
          StrictStep(tr, Run(TP, tr[..n]));
        } else {
          StrictFirst(tr);
          assert !RetriggersAt(tr, 0) by { FirstNeverRetriggers(tr); }
        }
      }
    }
  }

  lemma NothingRetriggers(tr: Trace)
    requires tr == []
    ensures !Retriggers(tr)
  {
  }

  lemma FirstNeverRetriggers(tr: Trace)
    requires tr != []
    ensures !RetriggersAt(tr, 0)
  {
  }

  lemma OneMoreSample(tr: Trace, s: Sample)
    ensures Run(TP, tr + [s]) == Set(TP, Run(TP, tr), s.input, s.preset, s.now)
    ensures RunStrict(tr + [s]) == StrictTp(RunStrict(tr).(input := s.input, preset := s.preset, enabled := true), s.now)
  {
    assert (tr + [s])[..|tr|] == tr;
  }

  lemma PulseDiffs()
    ensures Diff(0, 0) == 0 && Diff(0, 100) == 100 && Diff(0, 200) == 200 && Diff(0, 600) == 600
    ensures Diff(200, 200) == 0 && Diff(200, 600) == 400
  {
    DiffTrue(0, 0);
    DiffTrue(0, 100);
    DiffTrue(0, 200);
    DiffTrue(0, 600);
    DiffTrue(200, 200);
    DiffTrue(200, 600);
  }

  /** An edge 200 ms into a pulse of 500 ms: after 600 ms TP is still on, the other pulse is over. */
  lemma TpRetriggers()
    ensures var tr := [Sample(true, 500, 0), Sample(false, 500, 100), Sample(true, 500, 200), Sample(true, 500, 600)];
            Run(TP, tr).output && !RunStrict(tr).output
  {
    PulseDiffs();
    hide MsDiff, Split, Run, RunStrict;
    var s0, s1, s2, s3 := Sample(true, 500, 0), Sample(false, 500, 100), Sample(true, 500, 200), Sample(true, 500, 600);
    NoSamples();
    OneMoreSample([], s0);
    assert [] + [s0] == [s0];
    OneMoreSample([s0], s1);
    assert [s0] + [s1] == [s0, s1];
    OneMoreSample([s0, s1], s2);
    assert [s0, s1] + [s2] == [s0, s1, s2];
    OneMoreSample([s0, s1, s2], s3);
    assert [s0, s1, s2] + [s3] == [s0, s1, s2, s3];
  }

  lemma NoSamples()
    ensures Run(TP, []) == IDLE && RunStrict([]) == IDLE
  {
  }
}
