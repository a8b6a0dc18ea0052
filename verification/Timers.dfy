/** The five IEC timers of timers.c: one struct, five updaters sampled against the virtual clock. */
module Timers {
  import opened Words

  const U64: nat := 0x1_0000_0000_0000_0000
  const MAX_TIMERS: nat := 16

  /** `struct timespec`. */
  datatype Timespec = Timespec(sec: int, nsec: int)

  /** How the updaters split the millisecond clock. */
  function Split(ms: nat): Timespec {
    Timespec(ms / 1000, ms % 1000 * 1000000)
  }

  /** `ms_diff`: both differences are converted to `unsigned long long` before they are scaled. */
  function MsDiff(a: Timespec, b: Timespec): (d: nat)
    ensures d < U32
  {
    ((b.sec - a.sec) % U64 * 1000 % U64 + (b.nsec - a.nsec) % U64 / 1000000) % U64 % U32
  }

  /** `ms_diff` between two instants of the clock. */
  function Diff(start: nat, now: nat): (d: nat)
    ensures d < U32
  {
    MsDiff(Split(start), Split(now))
  }

  /** The sub-second part of the later instant is the smaller one. */
  predicate Borrows(start: nat, now: nat) {
    now % 1000 < start % 1000
  }

  /** What a borrow adds: 2^64 nanoseconds in whole milliseconds, in 32 bits. */
  const BORROW_ERROR: nat := 4154504685

  /** What the code measures between two instants, from the instants alone (`DiffExactly`). */
  function Measured(start: nat, now: nat): (ms: nat)
    ensures ms < U32
  {
    (now - start + BORROW_ERROR * Bit(start, now)) % U32
  }

  function Bit(start: nat, now: nat): nat {
    if Borrows(start, now) then 1 else 0
  }

  lemma ModReduce(x: int, q: int)
    ensures (x + q * U32) % U32 == x % U32
  {
  }

  lemma Mod64Then32(x: int)
    ensures x % U64 % U32 == x % U32
  {
    var q := x / U64;
    assert x == x % U64 + q * U64;
    ModReduce(x % U64, q * U32);
  }

  lemma ScaledSeconds(s: int, d: nat)
    ensures (s % U64 * 1000 % U64 + d) % U64 % U32 == (s * 1000 + d) % U32
  {
    var q := s / U64;
    assert s == s % U64 + q * U64;
    var x := s % U64 * 1000;
    var p := x / U64;
    assert x == x % U64 + p * U64;
    Mod64Then32(x % U64 + d);
    assert x % U64 + d + (p + q * 1000) * U32 * U32 == s * 1000 + d;
    ModReduce(x % U64 + d, (p + q * 1000) * U32);
  }

  lemma NanosForward(m: nat)
    requires m < 1000
    ensures m * 1000000 % U64 / 1000000 == m
  {
  }

  lemma Millis(q: nat, rest: nat)
    requires rest < 1000000
    ensures (q * 1000000 + rest) / 1000000 == q
  {
  }

  lemma NanosBorrowed(m: nat)
    requires 0 < m < 1000
    ensures -(m * 1000000) % U64 / 1000000 == 18446744073709 - m
  {
    assert -(m * 1000000) % U64 == U64 - m * 1000000;
    Millis(18446744073709 - m, 551616);
  }

  /** `ms_diff` is the elapsed time modulo 2^32, and too large by a constant when the sub-second part borrows. */
  lemma DiffExactly(start: nat, now: nat)
    ensures Diff(start, now) == Measured(start, now)
    ensures Diff(start, now) == if Borrows(start, now) then (now - start + BORROW_ERROR) % U32 else (now - start) % U32
  {
    var s := now / 1000 - start / 1000;
    var m := now % 1000 - start % 1000;
    assert now - start == s * 1000 + m;
    assert Split(now).nsec - Split(start).nsec == m * 1000000;
    if m >= 0 {
      NanosForward(m);
      ScaledSeconds(s, m);
    } else {
      NanosBorrowed(-m);
      ScaledSeconds(s, 18446744073709 + m);
      ModReduce(s * 1000 + m + BORROW_ERROR, 4294);
    }
  }

  lemma BorrowShifts(x: int)
    ensures (x + BORROW_ERROR) % U32 != x % U32
  {
    var y := x % U32;
    ModReduce(y + BORROW_ERROR, x / U32);
    assert x + BORROW_ERROR == y + BORROW_ERROR + x / U32 * U32;
  }

  /** The clock difference is right for exactly the instants without a borrow. */
  lemma DiffRightIff(start: nat, now: nat)
    ensures Diff(start, now) == (now - start) % U32 <==> !Borrows(start, now)
  {
    hide Diff;
    DiffExactly(start, now);
    BorrowShifts(now - start);
  }

  // ------------------------------------------------------------------
  // The five updaters
  // ------------------------------------------------------------------

  /** The value of an `IEC_Timer`. */
  datatype TimerState = TimerState(enabled: bool, input: bool, output: bool, prev: bool, timing: bool,
                                   start: Timespec, preset: nat, et: nat)

  /** `timers_init`. */
  const IDLE := TimerState(false, false, false, false, false, Timespec(0, 0), 0, 0)

  function Started(t: TimerState, now: nat): TimerState {
    t.(start := Split(now), timing := true)
  }

  /** `update_ton`. */
  function Ton(t: TimerState, now: nat): TimerState {
    if !t.enabled || t.preset == 0 then t.(output := false, et := 0)
    else
      var s :=
        if t.input then
          var u := if !t.prev then Started(t, now) else t;
          if u.timing then
            var et := MsDiff(u.start, Split(now));
            if et >= u.preset then u.(et := et, output := true, timing := false) else u.(et := et)
          else u
        else t.(output := false, et := 0, timing := false);
      s.(prev := t.input)
  }

  /** `update_tof`. */
  function Tof(t: TimerState, now: nat): TimerState {
    if !t.enabled || t.preset == 0 then t.(output := false, et := 0)
    else
      var s :=
        if t.input then t.(output := true, timing := false, et := 0)
        else
          var u := if t.prev then Started(t, now) else t;
          if u.timing then
            var et := MsDiff(u.start, Split(now));
            if et >= u.preset then u.(et := et, output := false, timing := false) else u.(et := et, output := true)
          else u;
      s.(prev := t.input)
  }

  /** `update_tp`. */
  function Tp(t: TimerState, now: nat): TimerState {
    if !t.enabled || t.preset == 0 then t.(output := false, et := 0)
    else
      var u := if t.input && !t.prev then Started(t, now).(output := true) else t;
      var s :=
        if u.timing then
          var et := MsDiff(u.start, Split(now));
          if et >= u.preset then u.(et := et, output := false, timing := false) else u.(et := et)
        else u;
      s.(prev := t.input)
  }

  /** `update_tonr`. */
  function Tonr(t: TimerState, now: nat): TimerState {
    if !t.enabled then t
    else
      var s :=
        if t.input then
          var u := if !t.prev then Started(t, now) else t;
          var v := if u.timing then u.(et := (u.et + MsDiff(u.start, Split(now))) % U32, start := Split(now)) else u;
          if v.et >= v.preset then v.(output := true, timing := false) else v
        else t;
      s.(prev := t.input)
  }

  /** `update_tofr`. */
  function Tofr(t: TimerState, now: nat): TimerState {
    if !t.enabled then t
    else
      var u := if !t.input && t.prev then Started(t, now) else t;
      var v :=
        if u.timing then
          var et := (u.et + MsDiff(u.start, Split(now))) % U32;
          if et >= u.preset then u.(et := et, start := Split(now), output := false, timing := false)
          else u.(et := et, start := Split(now), output := true)
        else u;
      var s := if t.input then v.(output := true, timing := false, et := 0) else v;
      s.(prev := t.input)
  }

  datatype Kind = TON | TOF | TP | TONR | TOFR

  function Update(k: Kind, t: TimerState, now: nat): TimerState {
    match k
    case TON => Ton(t, now)
    case TOF => Tof(t, now)
    case TP => Tp(t, now)
    case TONR => Tonr(t, now)
    case TOFR => Tofr(t, now)
  }

  /** `ton_set` and its four siblings. */
  function Set(k: Kind, t: TimerState, input: bool, preset: nat, now: nat): TimerState {
    Update(k, t.(input := input, preset := preset, enabled := true), now)
  }

  lemma NoTimeNoDiff(now: nat)
    ensures MsDiff(Split(now), Split(now)) == 0
  {
    DiffExactly(now, now);
  }

  lemma TonTwice(t: TimerState, now: nat)
    ensures Ton(Ton(t, now), now) == Ton(t, now)
  {
    hide MsDiff, Split;
  }

  lemma TofTwice(t: TimerState, now: nat)
    ensures Tof(Tof(t, now), now) == Tof(t, now)
  {
    hide MsDiff, Split;
  }

  lemma TpTwice(t: TimerState, now: nat)
    ensures Tp(Tp(t, now), now) == Tp(t, now)
  {
    hide MsDiff, Split;
  }

  lemma TonrTwice(t: TimerState, now: nat)
    requires t.et < U32
    ensures Tonr(Tonr(t, now), now) == Tonr(t, now)
  {
    hide MsDiff, Split;
    NoTimeNoDiff(now);
  }

  lemma TofrTwice(t: TimerState, now: nat)
    requires t.et < U32
    ensures Tofr(Tofr(t, now), now) == Tofr(t, now)
  {
    hide MsDiff, Split;
    NoTimeNoDiff(now);
  }

  /** Running any updater again at the same instant changes nothing, from any state. */
  lemma UpdateIdempotent(k: Kind, t: TimerState, now: nat)
    requires t.et < U32
    ensures Update(k, Update(k, t, now), now) == Update(k, t, now)
  {
    hide Ton, Tof, Tp, Tonr, Tofr;
    TonTwice(t, now);
    TofTwice(t, now);
    TpTwice(t, now);
    TonrTwice(t, now);
    TofrTwice(t, now);
  }

  /** The elapsed time stays a 32-bit value. */
  lemma UpdateInRange(k: Kind, t: TimerState, now: nat)
    requires t.et < U32
    ensures Update(k, t, now).et < U32
  {
    hide MsDiff, Split;
  }

  // ------------------------------------------------------------------
  // The struct, updated in place
  // ------------------------------------------------------------------

  class IecTimer {
    var enabled: bool
    var input: bool
    var output: bool
    var prevInput: bool
    var timing: bool
    var start: Timespec
    var presetMs: nat
    var elapsed: nat

    function State(): TimerState
      reads this
    {
      TimerState(enabled, input, output, prevInput, timing, start, presetMs, elapsed)
    }

    constructor ()
      ensures State() == IDLE
    {
      enabled, input, output, prevInput, timing := false, false, false, false, false;
      start, presetMs, elapsed := Timespec(0, 0), 0, 0;
    }

    method UpdateTon(now: nat)
      modifies this
      ensures State() == Ton(old(State()), now)
    {
      if !enabled || presetMs == 0 {
        output := false;
        elapsed := 0;
        return;
      }
      var rising := input && !prevInput;
      if input {
        if rising {
          start := Split(now);
          timing := true;
        }
        if timing {
          elapsed := MsDiff(start, Split(now));
          if elapsed >= presetMs {
            output := true;
            timing := false;
          }
        }
      } else {
        output := false;
        elapsed := 0;
        timing := false;
      }
      prevInput := input;
    }

    method UpdateTof(now: nat)
      modifies this
      ensures State() == Tof(old(State()), now)
    {
      if !enabled || presetMs == 0 {
        output := false;
        elapsed := 0;
        return;
      }
      var falling := !input && prevInput;
      if input {
        output := true;
        timing := false;
        elapsed := 0;
      } else {
        if falling {
          start := Split(now);
          timing := true;
        }
        if timing {
          elapsed := MsDiff(start, Split(now));
          if elapsed >= presetMs {
            output := false;
            timing := false;
          } else {
            output := true;
          }
        }
      }
      prevInput := input;
    }

    method UpdateTp(now: nat)
      modifies this
      ensures State() == Tp(old(State()), now)
    {
      if !enabled || presetMs == 0 {
        output := false;
        elapsed := 0;
        return;
      }
      var rising := input && !prevInput;
      if rising {
        start := Split(now);
        timing := true;
        output := true;
      }
      if timing {
        elapsed := MsDiff(start, Split(now));
        if elapsed >= presetMs {
          output := false;
          timing := false;
        }
      }
      prevInput := input;
    }

    method UpdateTonr(now: nat)
      modifies this
      ensures State() == Tonr(old(State()), now)
    {
      if !enabled {
        return;
      }
      var rising := input && !prevInput;
      if input {
        if rising {
          start := Split(now);
          timing := true;
        }
        if timing {
          elapsed := (elapsed + MsDiff(start, Split(now))) % U32;
          start := Split(now);
        }
        if elapsed >= presetMs {
          output := true;
          timing := false;
        }
      }
      prevInput := input;
    }

    method UpdateTofr(now: nat)
      modifies this
      ensures State() == Tofr(old(State()), now)
    {
      if !enabled {
        return;
      }
      var falling := !input && prevInput;
      if falling {
        start := Split(now);
        timing := true;
      }
      if timing {
        elapsed := (elapsed + MsDiff(start, Split(now))) % U32;
        start := Split(now);
        if elapsed >= presetMs {
          output := false;
          timing := false;
        } else {
          output := true;
        }
      }
      if input {
        output := true;
        timing := false;
        elapsed := 0;
      }
      prevInput := input;
    }

    method UpdateAs(k: Kind, now: nat)
      modifies this
      ensures State() == Update(k, old(State()), now)
    {
      match k
      case TON => UpdateTon(now);
      case TOF => UpdateTof(now);
      case TP => UpdateTp(now);
      case TONR => UpdateTonr(now);
      case TOFR => UpdateTofr(now);
    }
  }

  // ------------------------------------------------------------------
  // The five arrays of the VM
  // ------------------------------------------------------------------

  class TimerBank {
    const ton: seq<IecTimer>
    const tof: seq<IecTimer>
    const tp: seq<IecTimer>
    const tonr: seq<IecTimer>
    const tofr: seq<IecTimer>

    function All(): seq<IecTimer> { ton + tof + tp + tonr + tofr }

    function Row(k: Kind): seq<IecTimer> {
      match k
      case TON => ton
      case TOF => tof
      case TP => tp
      case TONR => tonr
      case TOFR => tofr
    }

    /** Sixteen timers of each kind, no two of them the same object. */
    ghost predicate Valid() {
      && |ton| == |tof| == |tp| == |tonr| == |tofr| == MAX_TIMERS
      && forall k, l, i, j :: 0 <= i < MAX_TIMERS && 0 <= j < MAX_TIMERS && (k != l || i != j) ==> Row(k)[i] != Row(l)[j]
    }

    ghost function Repr(): set<IecTimer> {
      set t | t in All()
    }

    /** The place of a row among all timers. */
    ghost function First(k: Kind): nat {
      match k
      case TON => 0
      case TOF => 16
      case TP => 32
      case TONR => 48
      case TOFR => 64
    }

    /** `timers_init`. */
    constructor ()
      ensures Valid() && fresh(Repr())
      ensures forall k, j :: 0 <= j < MAX_TIMERS ==> Row(k)[j].State() == IDLE
    {
      var all := NewTimers(80);
      ton, tof, tp, tonr, tofr := all[..16], all[16..32], all[32..48], all[48..64], all[64..];
      new;
      hide Repr, Valid, IecTimer.State;
      SlicedValid(all);
      assert All() == all;
      SlicedRepr(all);
      forall k: Kind, j | 0 <= j < MAX_TIMERS
        ensures Row(k)[j].State() == IDLE
      {
        SlicedAt(all, k, j);
      }
    }

    ghost predicate Sliced(all: seq<IecTimer>) {
      |all| == 80 && ton == all[..16] && tof == all[16..32] && tp == all[32..48] && tonr == all[48..64] && tofr == all[64..]
    }

    lemma SlicedRepr(all: seq<IecTimer>)
      requires All() == all
      ensures Repr() == set t | t in all
    {
    }

    lemma SlicedAt(all: seq<IecTimer>, k: Kind, j: nat)
      requires Sliced(all) && j < MAX_TIMERS
      ensures |Row(k)| == MAX_TIMERS && First(k) + j < 80 && Row(k)[j] == all[First(k) + j]
    {
    }

    lemma SlicedValid(all: seq<IecTimer>)
      requires Sliced(all) && forall i, j :: 0 <= i < j < 80 ==> all[i] != all[j]
      ensures Valid()
    {
      forall k: Kind, l: Kind, i, j | 0 <= i < MAX_TIMERS && 0 <= j < MAX_TIMERS && (k != l || i != j)
        ensures |Row(k)| == |Row(l)| == MAX_TIMERS && Row(k)[i] != Row(l)[j]
      {
        SlicedAt(all, k, i);
        SlicedAt(all, l, j);
        assert First(k) + i < First(l) + j || First(l) + j < First(k) + i;
      }
    }

    static method NewTimers(n: nat) returns (row: seq<IecTimer>)
      ensures |row| == n && fresh(set t | t in row)
      ensures forall i, j :: 0 <= i < j < n ==> row[i] != row[j]
      ensures forall j :: 0 <= j < n ==> row[j].State() == IDLE
    {
      row := [];
      while |row| < n
        invariant |row| <= n
        invariant fresh(set t | t in row)
        invariant forall i, j :: 0 <= i < j < |row| ==> row[i] != row[j]
        invariant forall j :: 0 <= j < |row| ==> row[j].State() == IDLE
      {
        var t := new IecTimer();
        row := row + [t];
      }
    }

    /** `ton_set` and its siblings: an id out of range is ignored. */
    method SetTimer(k: Kind, id: nat, input: bool, preset: nat, now: nat)
      requires Valid()
      modifies Repr()
      ensures id < MAX_TIMERS ==> Row(k)[id].State() == Set(k, old(Row(k)[id].State()), input, preset, now)
      ensures forall l, j :: 0 <= j < MAX_TIMERS && (l != k || j != id) ==> Row(l)[j].State() == old(Row(l)[j].State())
    {
      hide Ton, Tof, Tp, Tonr, Tofr, Update;
      if id >= MAX_TIMERS {
        return;
      }
      var t := Row(k)[id];
      InRepr(k, id);
      t.input := input;
      t.presetMs := preset;
      t.enabled := true;
      t.UpdateAs(k, now);
    }

    /** `ton_Q` and its siblings. */
    method Q(k: Kind, id: nat) returns (q: bool)
      requires Valid()
      ensures q == if id < MAX_TIMERS then Row(k)[id].State().output else false
    {
      q := if id < MAX_TIMERS then Row(k)[id].output else false;
    }

    lemma InRepr(k: Kind, i: nat)
      requires Valid() && i < MAX_TIMERS
      ensures Row(k)[i] in Repr()
    {
      assert Row(k)[i] in All();
    }

    lemma RowsInRepr()
      ensures (set t | t in ton) <= Repr() && (set t | t in tof) <= Repr() && (set t | t in tp) <= Repr()
      ensures (set t | t in tonr) <= Repr() && (set t | t in tofr) <= Repr()
    {
    }

    /** The body of the loop of `update_all_timers`: the five timers with one id. */
    method UpdateColumn(i: nat, now: nat)
      requires Valid() && i < MAX_TIMERS
      modifies set k: Kind :: Row(k)[i]
      ensures forall k :: Row(k)[i].State() == Update(k, old(Row(k)[i].State()), now)
    {
      hide Ton, Tof, Tp, Tonr, Tofr;
      assert Row(TON)[i] == ton[i] && Row(TOF)[i] == tof[i] && Row(TP)[i] == tp[i] && Row(TONR)[i] == tonr[i] && Row(TOFR)[i] == tofr[i];
      ton[i].UpdateTon(now);
      tof[i].UpdateTof(now);
      tp[i].UpdateTp(now);
      tonr[i].UpdateTonr(now);
      tofr[i].UpdateTofr(now);
    }

    /** `update_all_timers`: every timer of every kind is updated exactly once, at the same instant. */
    method UpdateAll(now: nat)
      requires Valid()
      modifies Repr()
      ensures forall k, j :: 0 <= j < MAX_TIMERS ==> Row(k)[j].State() == Update(k, old(Row(k)[j].State()), now)
    {
      hide Update;
      forall k: Kind, j | 0 <= j < MAX_TIMERS
        ensures Row(k)[j] in Repr()
      {
        InRepr(k, j);
      }
      var i := 0;
      while i < MAX_TIMERS
        invariant 0 <= i <= MAX_TIMERS
        invariant forall k, j :: 0 <= j < i ==> Row(k)[j].State() == Update(k, old(Row(k)[j].State()), now)
        invariant forall k, j :: i <= j < MAX_TIMERS ==> Row(k)[j].State() == old(Row(k)[j].State())
      {
        UpdateColumn(i, now);
        i := i + 1;
      }
    }
  }
}
