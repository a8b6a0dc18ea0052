/** TONR against real time: what it shows in terms of the sample times, and exactly when that is the time
    the input has been true. */
module TimerRetentive {
  import opened Words
  import opened Timers
  import opened TimerTraces
  import opened TimerIdeal

  predicate TruePair(tr: Trace, n: nat)
    requires n < |tr|
  {
    n > 0 && tr[n - 1].input && tr[n].input
  }

  /** The real time between consecutive samples with the input true, added up. */
  function TrueOn(tr: Trace, n: nat): int
    requires n < |tr|
  {
    if n == 0 then 0
    else TrueOn(tr, n - 1) + if TruePair(tr, n) then tr[n].now - tr[n - 1].now else 0
  }

  /** How many of those pairs borrow. */
  function BorrowsOn(tr: Trace, n: nat): nat
    requires n < |tr|
  {
    if n == 0 then 0
    else BorrowsOn(tr, n - 1) + if TruePair(tr, n) then Bit(tr[n - 1].now, tr[n].now) else 0
  }

  lemma SumModulo(x: int, y: int, s: int, t: int)
    requires x % U32 == s % U32 && y % U32 == t % U32
    ensures (x + y) % U32 == (s + t) % U32
  {
    ModSum(x, y);
    ModSum(s, t);
  }

  /** The 32-bit sum of the readings is the real on-time plus 4154504685 for every borrow: on any trace. */
  lemma {:induction false} OnReadingIs(tr: Trace, n: nat)
    requires n < |tr|
    ensures OnReading(tr, n) == (TrueOn(tr, n) + BORROW_ERROR * BorrowsOn(tr, n)) % U32
  {
    hide Diff, Bit;
    if n > 0 {
      OnReadingIs(tr, n - 1);
      var before := TrueOn(tr, n - 1) + BORROW_ERROR * BorrowsOn(tr, n - 1);
      if TruePair(tr, n) {
        DiffExactly(tr[n - 1].now, tr[n].now);
        var step := tr[n].now - tr[n - 1].now + BORROW_ERROR * Bit(tr[n - 1].now, tr[n].now);
        MeasuredModulo(tr[n - 1].now, tr[n].now);
        SumModulo(OnTime(tr, n - 1), Diff(tr[n - 1].now, tr[n].now), before, step);
      }
    }
  }

  lemma MeasuredModulo(start: nat, now: nat)
    ensures Measured(start, now) % U32 == (now - start + BORROW_ERROR * Bit(start, now)) % U32
  {
    hide Bit;
  }

  lemma {:induction false} OnGrows(tr: Trace, i: nat, n: nat)
    requires i <= n < |tr| && Monotone(tr)
    ensures 0 <= TrueOn(tr, i) <= TrueOn(tr, n) && BorrowsOn(tr, i) <= BorrowsOn(tr, n)
    decreases n
  {
    if i < n {
      OnGrows(tr, i, n - 1);
    } else if n > 0 {
      OnGrows(tr, n - 1, n - 1);
    }
  }

  /** The first sample at which the real on-time has reached `p`, or `n`. */
  function TrulyReached(tr: Trace, p: nat, n: nat): (i: nat)
    requires n < |tr|
    ensures i <= n
    ensures forall j :: 0 <= j < i ==> TrueOn(tr, j) < p
    ensures i < n ==> TrueOn(tr, i) >= p
  {
    if n == 0 then 0
    else
      var i := TrulyReached(tr, p, n - 1);
      if TrueOn(tr, i) >= p then i else n
  }

  /** What the timer's 32-bit sum reads, from the sample times alone. */
  function TimesRead(tr: Trace, n: nat): nat
    requires n < |tr|
  {
    (TrueOn(tr, n) + BORROW_ERROR * BorrowsOn(tr, n)) % U32
  }

  // ------------------------------------------------------------------
  // The output on any trace
  // ------------------------------------------------------------------

  /** On every trace with one preset: the output is on exactly when the input has been on and at some
      sample the real on-time, plus 4154504685 for every borrow, cut to 32 bits, reached the preset. */
  lemma OutputExactly(tr: Trace, p: nat)
    requires tr != [] && ConstantPreset(tr, p)
    ensures Run(TONR, tr).output <==> EverOn(tr, |tr| - 1) && exists i :: 0 <= i < |tr| && TimesRead(tr, i) >= p
  {
    hide OnReading, TimesRead, EverOn, Run;
    var n := |tr| - 1;
    TonrTrace(tr, p);
    var r := Reached(tr, p, n);
    TimesReadIs(tr, r);
    if exists i :: 0 <= i < |tr| && TimesRead(tr, i) >= p {
      var i :| 0 <= i < |tr| && TimesRead(tr, i) >= p;
      TimesReadIs(tr, i);
    }
  }

  lemma TimesReadIs(tr: Trace, n: nat)
    requires n < |tr|
    ensures TimesRead(tr, n) == OnReading(tr, n)
  {
    hide OnReading, TrueOn, BorrowsOn;
    OnReadingIs(tr, n);
  }

  // ------------------------------------------------------------------
  // Real time
  // ------------------------------------------------------------------

  /** As long as no pair has borrowed the code is at the same point as real time. */
  lemma {:induction false} SamePoint(tr: Trace, p: nat, n: nat)
    requires n < |tr| && Monotone(tr)
    requires var r := TrulyReached(tr, p, n); BorrowsOn(tr, r) == 0 && TrueOn(tr, r) < U32
    ensures Reached(tr, p, n) == TrulyReached(tr, p, n)
    ensures OnReading(tr, Reached(tr, p, n)) == TrueOn(tr, TrulyReached(tr, p, n))
  {
    var r := TrulyReached(tr, p, n);
    OnReadingIs(tr, r);
    OnGrows(tr, 0, r);
    hide OnReading, TrueOn, BorrowsOn;
    Small(TrueOn(tr, r));
    if n > 0 {
      OnGrows(tr, TrulyReached(tr, p, n - 1), r);
      SamePoint(tr, p, n - 1);
    }
  }

  lemma Small(x: int)
    requires 0 <= x < U32
    ensures x % U32 == x
  {
  }

  /** After the last sample of a trace the timer shows the real on-time up to the preset. */
  predicate ShowsTrueTime(tr: Trace, p: nat)
    requires tr != []
  {
    var n, t := |tr| - 1, Run(TONR, tr);
    t.et == TrueOn(tr, TrulyReached(tr, p, n)) && (t.output <==> EverOn(tr, n) && TrueOn(tr, n) >= p)
  }

  predicate AlwaysShowsTrueTime(tr: Trace, p: nat) {
    forall m :: 0 < m <= |tr| ==> ShowsTrueTime(tr[..m], p)
  }

  lemma TrulyReachedIff(tr: Trace, p: nat, n: nat)
    requires n < |tr| && Monotone(tr)
    ensures TrueOn(tr, TrulyReached(tr, p, n)) >= p <==> TrueOn(tr, n) >= p
  {
    OnGrows(tr, TrulyReached(tr, p, n), n);
  }

  lemma {:induction false} OnPrefix(tr: Trace, n: nat)
    requires n < |tr| - 1
    ensures TrueOn(tr[..|tr| - 1], n) == TrueOn(tr, n) && BorrowsOn(tr[..|tr| - 1], n) == BorrowsOn(tr, n)
  {
    hide Bit;
    if n > 0 {
      OnPrefix(tr, n - 1);
    }
  }

  lemma {:induction false} TrulyReachedPrefix(tr: Trace, p: nat, n: nat)
    requires n < |tr| - 1
    ensures TrulyReached(tr[..|tr| - 1], p, n) == TrulyReached(tr, p, n)
  {
    hide TrueOn;
    if n > 0 {
      TrulyReachedPrefix(tr, p, n - 1);
      OnPrefix(tr, TrulyReached(tr, p, n - 1));
    }
  }

  lemma TrueWithoutBorrow(tr: Trace, p: nat)
    requires tr != [] && Monotone(tr) && ConstantPreset(tr, p)
    requires var r := TrulyReached(tr, p, |tr| - 1); BorrowsOn(tr, r) == 0 && TrueOn(tr, r) < U32
    ensures ShowsTrueTime(tr, p)
  {
    hide Run, OnReading, TrueOn, BorrowsOn, EverOn;
    TonrTrace(tr, p);
    SamePoint(tr, p, |tr| - 1);
    TrulyReachedIff(tr, p, |tr| - 1);
  }

  /** The first borrow before the preset is reached shows at once. */
  lemma FirstBorrowShows(tr: Trace, p: nat)
    requires |tr| > 1 && Monotone(tr) && ConstantPreset(tr, p)
    requires var n := |tr| - 1;
             BorrowsOn(tr, TrulyReached(tr, p, n - 1)) == 0 && BorrowsOn(tr, TrulyReached(tr, p, n)) > 0
    requires TrueOn(tr, TrulyReached(tr, p, |tr| - 1)) < U32
    ensures !ShowsTrueTime(tr, p)
  {
    hide Run, OnReading, TrueOn, BorrowsOn, EverOn, Reached;
    var n := |tr| - 1;
    var r := TrulyReached(tr, p, n - 1);
    assert TrulyReached(tr, p, n) == n && r == n - 1;
    BorrowStep(tr, n);
    OnGrows(tr, n - 1, n);
    SamePoint(tr, p, n - 1);
    ReachedNext(tr, p, n);
    OnReadingIs(tr, n);
    TonrTrace(tr, p);
    BorrowShifts(TrueOn(tr, n));
    Small(TrueOn(tr, n));
  }

  lemma BorrowStep(tr: Trace, n: nat)
    requires 0 < n < |tr|
    ensures BorrowsOn(tr, n) <= BorrowsOn(tr, n - 1) + 1
  {
  }

  lemma ReachedNext(tr: Trace, p: nat, n: nat)
    requires 0 < n < |tr| && OnReading(tr, Reached(tr, p, n - 1)) < p
    ensures Reached(tr, p, n) == n
  {
  }

  lemma {:induction false} NoneAtStart(tr: Trace, p: nat)
    requires |tr| == 1
    ensures TrulyReached(tr, p, 0) == 0 && BorrowsOn(tr, 0) == 0 && TrueOn(tr, 0) == 0
  {
  }

  /** On every monotone trace with one preset whose on-time up to the preset fits 32 bits: the elapsed
      time shown is the real on-time up to the preset, and the output follows it, at every sample, if and
      only if no pair of true samples borrows before the preset is reached. */
  lemma {:induction false} TrueTimeIff(tr: Trace, p: nat)
    requires tr != [] && Monotone(tr) && ConstantPreset(tr, p)
    requires TrueOn(tr, TrulyReached(tr, p, |tr| - 1)) < U32
    ensures AlwaysShowsTrueTime(tr, p) <==> BorrowsOn(tr, TrulyReached(tr, p, |tr| - 1)) == 0
  {
    hide ShowsTrueTime, TrueOn, BorrowsOn, TrulyReached;
    var n := |tr| - 1;
    assert tr[..n + 1] == tr;
    if n == 0 {
      NoneAtStart(tr, p);
      TrueWithoutBorrow(tr, p);
    } else {
      var r, r' := TrulyReached(tr, p, n - 1), TrulyReached(tr, p, n);
      TrulyReachedPrefix(tr, p, n - 1);
      OnPrefix(tr, r);
      OnGrows(tr, r, r');
      TrueTimeIff(tr[..n], p);
      assert forall m :: 0 < m <= n ==> tr[..n][..m] == tr[..m];
      assert AlwaysShowsTrueTime(tr, p) <==> AlwaysShowsTrueTime(tr[..n], p) && ShowsTrueTime(tr, p);
      if BorrowsOn(tr, r') == 0 {
        TrueWithoutBorrow(tr, p);
      } else if BorrowsOn(tr, r) == 0 {
        FirstBorrowShows(tr, p);
      }
    }
  }

  /** For presets up to 48 days and less than 39 hours of on-time before the preset: the output is on
      exactly when the input has been on and the preset has passed in real time or some pair has borrowed. */
  lemma OutputSoon(tr: Trace, p: nat)
    requires tr != [] && Monotone(tr) && ConstantPreset(tr, p) && p <= BORROW_ERROR
    requires TrueOn(tr, TrulyReached(tr, p, |tr| - 1)) < SAFE_SPAN
    ensures var n := |tr| - 1;
            Run(TONR, tr).output <==> EverOn(tr, n) && (TrueOn(tr, n) >= p || BorrowsOn(tr, n) > 0)
  {
    hide Run, OnReading, TrueOn, BorrowsOn, EverOn;
    var n := |tr| - 1;
    var r := TrulyReached(tr, p, n);
    TonrTrace(tr, p);
    TrulyReachedIff(tr, p, n);
    OnGrows(tr, r, n);
    if BorrowsOn(tr, r) == 0 {
      SamePoint(tr, p, n);
    } else {
      var i := FirstBorrow(tr, r);
      OnGrows(tr, i, r);
      OnReadingIs(tr, i);
      Small(TrueOn(tr, i) + BORROW_ERROR);
      assert OnReading(tr, i) >= p;
    }
  }

  lemma {:induction false} FirstBorrow(tr: Trace, n: nat) returns (i: nat)
    requires n < |tr| && BorrowsOn(tr, n) > 0
    ensures i <= n && BorrowsOn(tr, i) == 1
  {
    if BorrowsOn(tr, n) == 1 {
      i := n;
    } else {
      i := FirstBorrow(tr, n - 1);
    }
  }

  /** Two true samples 100 ms apart across a second boundary: the timer shows 48 days and is on. */
  lemma TonrMiscounts()
    ensures var tr := [Sample(true, 5000, 900), Sample(true, 5000, 1000)];
            var t := Run(TONR, tr);
            TrueOn(tr, 1) == 100 && t.et == 100 + BORROW_ERROR && t.output && !ShowsTrueTime(tr, 5000)
  {
    hide Run, OnReading, TrueOn, BorrowsOn, TrulyReached, EverOn;
    var tr := [Sample(true, 5000, 900), Sample(true, 5000, 1000)];
    OneBorrow(tr);
    OnReadingIs(tr, 0);
    OnReadingIs(tr, 1);
    TonrTrace(tr, 5000);
    assert Reached(tr, 5000, 0) == 0;
  }

  lemma OneBorrow(tr: Trace)
    requires tr == [Sample(true, 5000, 900), Sample(true, 5000, 1000)]
    ensures TrueOn(tr, 0) == 0 && BorrowsOn(tr, 0) == 0 && TrueOn(tr, 1) == 100 && BorrowsOn(tr, 1) == 1
    ensures TrulyReached(tr, 5000, 1) == 1 && EverOn(tr, 1)
  {
  }
}
