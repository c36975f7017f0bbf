/** The code of src/dll.c, with its 28-bit clock and 32-bit counters, computes the same as the
    ideal loop of module Ideal: every error, every correction and every ratio, over any number
    of wraps of the clock and of the counters. */
module DllRefinement {
  import opened Words
  import opened Reals
  import opened Dll
  import Ideal

  /** What the two threads do to the loop, in the order in which the engine's lock serialises them.
      `Start` is the first thing the engine's thread does. `Cycle` is a JACK cycle; the one that boots
      the resampler does not run the filter. */
  datatype Event =
    | Start
    | Arrival(t: nat)
    | Reader(frames: nat)
    | Cycle(t: nat, filtered: bool, undefined: real)
    | Filter(bw: real, outputFrames: nat, outputRate: real, decay: real)
    | Reset(outputRate: real, outputFrames: nat, inputFrames: nat, counter: uint32)

  datatype Loop = Loop(o: Overbridge, h: Host)

  function Seconds(t: nat): real {
    t as real / 1000000.0
  }

  /** How often the 28-bit clock had started over by time t. */
  function Window(t: nat): nat {
    t / CLOCK_SPAN
  }

  /** The counter as the code goes on to read it: its unsigned differences are taken as signed numbers. */
  function Signed(h: Host): Host {
    h.(frames := I32(h.frames))
  }

  /** The ideal loop that starts where the code is. */
  function IdealOf(s: Loop): Loop {
    s.(h := Signed(s.h))
  }

  lemma SignedIsSame(n: int)
    ensures U32(I32(n)) == U32(n)
  {
  }

  function ResetHost(h: Host, e: Event): Host
    requires e.Reset?
  {
    HostReset(HostInit(h), e.outputRate, OB_SAMPLE_RATE, e.outputFrames, e.inputFrames, e.counter)
  }

  function Step(s: Loop, frames: uint32, e: Event): Loop {
    match e
    case Start => s.(o := OverbridgeInit(s.o, OB_SAMPLE_RATE, frames))
    case Arrival(t) => s.(o := OverbridgeUpdate(s.o, frames, t))
    case Reader(n) => s.(h := CountFrames(s.h, n))
    case Cycle(t, filtered, undefined) =>
      var h := HostUpdateError(LoadOverbridge(s.h, s.o), t, undefined);
      s.(h := if filtered then HostUpdate(h) else h)
    case Filter(bw, n, rate, decay) =>
      if rate == 0.0 then s else s.(h := HostSetLoopFilter(s.h, bw, n, rate, decay))
    case Reset(_, _, _, _) => Loop(s.o.(boot := true), ResetHost(s.h, e))
  }

  function IdealStep(s: Loop, frames: uint32, e: Event): Loop {
    match e
    case Start => s.(o := OverbridgeInit(s.o, OB_SAMPLE_RATE, frames))
    case Arrival(t) => s.(o := Ideal.Arrive(s.o, frames, Seconds(t)))
    case Reader(n) => s.(h := Ideal.Count(s.h, n))
    case Cycle(t, filtered, undefined) =>
      if s.o.i0.time == s.o.i1.time then s else
      var h := Ideal.UpdateError(LoadOverbridge(s.h, s.o), Seconds(t));
      s.(h := if filtered then Ideal.Correct(h) else h)
    case Filter(bw, n, rate, decay) =>
      if rate == 0.0 then s else s.(h := HostSetLoopFilter(s.h, bw, n, rate, decay))
    case Reset(_, _, _, _) => Loop(s.o.(boot := true), Signed(ResetHost(s.h, e)))
  }

  function Run(s: Loop, frames: uint32, events: seq<Event>): Loop {
    if events == [] then s
    else Step(Run(s, frames, events[..|events| - 1]), frames, events[|events| - 1])
  }

  function IdealRun(s: Loop, frames: uint32, events: seq<Event>): Loop {
    if events == [] then s
    else IdealStep(IdealRun(s, frames, events[..|events| - 1]), frames, events[|events| - 1])
  }

  function LastArrival(events: seq<Event>, start: nat): nat {
    if events == [] then start
    else if events[|events| - 1].Arrival? then events[|events| - 1].t
    else LastArrival(events[..|events| - 1], start)
  }

  // ----- What the environment promises, on the ideal loop -----

  /** The lateness can be told from a wrap of the clock. */
  predicate Readable(lateness: real) {
    -MODTIME_THRESHOLD <= lateness < QUANTUM - MODTIME_THRESHOLD
  }

  /** Less than one wrap between arrivals; true errors and host offsets within 68 s; no more
      than 2^31 frames pending. */
  predicate Tame(s: Loop, frames: uint32, last: nat, e: Event) {
    match e
    case Arrival(t) =>
      && (!s.o.boot ==> last <= t < last + CLOCK_SPAN)
      && -68.0 <= Ideal.Lateness(s.o, frames, Seconds(t)) <= 68.0
    case Cycle(t, _, _) =>
      && !s.o.boot
      && s.o.i0.time != s.o.i1.time
      && -68.0 <= s.o.i1.time - s.o.i0.time <= 68.0
      && -68.0 <= Seconds(t) - s.o.i0.time <= 68.0
      && -68.0 <= Seconds(last) - s.o.i0.time <= 68.0
      && FitsInt32(s.o.i0.frames - s.h.frames)
      && (s.h.boot ==> FitsInt32(Round(Ideal.Error(LoadOverbridge(s.h, s.o), Seconds(t)))))
    case _ => true
  }

  predicate TameRun(s: Loop, frames: uint32, start: nat, events: seq<Event>) {
    if events == [] then true
    else
      var before := events[..|events| - 1];
      && TameRun(s, frames, start, before)
      && Tame(IdealRun(s, frames, before), frames, LastArrival(before, start), events[|events| - 1])
  }

  // ----- The relation -----

  predicate SameLine(code: Overbridge, ideal: Overbridge, frames: uint32, last: nat) {
    && code.boot == ideal.boot
    && code.dt == ideal.dt && code.w1 == ideal.w1 && code.w2 == ideal.w2
    && (!code.boot ==>
          && code.i0.time == ideal.i0.time - Window(last) as real * QUANTUM
          && code.i1.time == ideal.i1.time - Window(last) as real * QUANTUM
          && code.i0.frames == U32(ideal.i0.frames)
          && code.i1.frames == U32(ideal.i1.frames)
          && ideal.i1.frames - ideal.i0.frames == frames)
  }

  /** Equal up to the counter, and to the two points that every cycle loads anew. */
  predicate SameHost(code: Host, ideal: Host) {
    && code.frames == U32(ideal.frames)
    && code == ideal.(frames := code.frames, i0 := code.i0, i1 := code.i1)
  }

  predicate Refines(code: Loop, ideal: Loop, frames: uint32, last: nat) {
    && SameLine(code.o, ideal.o, frames, last)
    && SameHost(code.h, ideal.h)
  }

  // ----- The clock -----

  lemma WallClockDropsWindows(t: nat)
    ensures WallClock(t) == Seconds(t) - Window(t) as real * QUANTUM
  {
    assert t == Window(t) * CLOCK_SPAN + t % CLOCK_SPAN;
    assert t as real == Window(t) as real * 268435456.0 + (t % CLOCK_SPAN) as real;
  }

  lemma NextWindow(last: nat, t: nat)
    requires last <= t < last + CLOCK_SPAN
    ensures Window(t) == Window(last) || Window(t) == Window(last) + 1
  {
  }

  /** Exactly when the code reads the lateness of a transfer right, given that less than a wrap has
      passed: the threshold splits the errors it can tell apart. */
  lemma ArrivalErrorExact(code: Overbridge, ideal: Overbridge, frames: uint32, last: nat, t: nat)
    requires !code.boot && SameLine(code, ideal, frames, last) && last <= t < last + CLOCK_SPAN
    ensures var e := Ideal.Lateness(ideal, frames, Seconds(t));
            ArrivalError(code, frames, t) == e <==>
              if Window(t) == Window(last) then e >= -MODTIME_THRESHOLD else e < QUANTUM - MODTIME_THRESHOLD
  {
    WallClockDropsWindows(t);
    NextWindow(last, t);
  }

  lemma ArrivalErrorRefines(code: Overbridge, ideal: Overbridge, frames: uint32, last: nat, t: nat)
    requires SameLine(code, ideal, frames, last)
    requires !code.boot ==> last <= t < last + CLOCK_SPAN
    requires Readable(Ideal.Lateness(ideal, frames, Seconds(t)))
    ensures ArrivalError(code, frames, t) == Ideal.Lateness(ideal, frames, Seconds(t))
    ensures var ready := Unwrapped(Booted(code, frames, WallClock(t)), WallClock(t));
            var booted := Booted(ideal, frames, Seconds(t));
            && ready.i1.time == booted.i1.time - Window(t) as real * QUANTUM
            && ready.i1.frames == U32(booted.i1.frames)
            && ready == booted.(i0 := ready.i0, i1 := ready.i1)
  {
    WallClockDropsWindows(t);
    if !code.boot {
      NextWindow(last, t);
    }
  }

  lemma ArrivalRefines(code: Overbridge, ideal: Overbridge, frames: uint32, last: nat, t: nat)
    requires SameLine(code, ideal, frames, last)
    requires !code.boot ==> last <= t < last + CLOCK_SPAN
    requires Readable(Ideal.Lateness(ideal, frames, Seconds(t)))
    ensures SameLine(OverbridgeUpdate(code, frames, t), Ideal.Arrive(ideal, frames, Seconds(t)), frames, t)
  {
    ArrivalErrorRefines(code, ideal, frames, last, t);
    hide Ideal.Lateness, ArrivalError, WallClock, Unwrapped, Booted, Seconds, Window;
    ModSum(Booted(ideal, frames, Seconds(t)).i1.frames, frames);
  }

  lemma WrapTimeUndoesWindow(d: real, k: int)
    requires -68.0 <= d <= 68.0 && -1 <= k <= 1
    ensures WrapTime(d + k as real * QUANTUM, QUANTUM) == d
  {
  }

  lemma CloseWindows(a: nat, b: nat)
    requires -136.0 <= Seconds(a) - Seconds(b) <= 136.0
    ensures -1 <= Window(a) - Window(b) <= 1
  {
    assert (a - b) as real == (Seconds(a) - Seconds(b)) * 1000000.0;
    assert -136000000 <= a - b <= 136000000;
  }

  // ----- A host cycle -----

  /** The two time differences of the interpolation are the true ones. */
  lemma OffsetsRefine(code: Loop, ideal: Loop, frames: uint32, last: nat, t: nat)
    requires Refines(code, ideal, frames, last) && Tame(ideal, frames, last, Cycle(t, true, 0.0))
    ensures var h := LoadOverbridge(code.h, code.o);
            && HostOffset(h, t) == Seconds(t) - ideal.o.i0.time
            && HostSpan(h) == ideal.o.i1.time - ideal.o.i0.time
  {
    WallClockDropsWindows(t);
    CloseWindows(t, last);
    var k, d := Window(last) - Window(t), Seconds(t) - ideal.o.i0.time;
    assert WallClock(t) - code.o.i0.time == d + k as real * QUANTUM;
    WrapTimeUndoesWindow(d, k);
    WrapTimeUndoesWindow(ideal.o.i1.time - ideal.o.i0.time, 0);
  }

  /** The two counter differences are the true ones. */
  lemma CountersRefine(code: Loop, ideal: Loop, frames: uint32, last: nat, t: nat)
    requires Refines(code, ideal, frames, last) && frames < 0x8000_0000
    requires Tame(ideal, frames, last, Cycle(t, true, 0.0))
    ensures var h := LoadOverbridge(code.h, code.o);
            && Backlog(h) == ideal.o.i0.frames - ideal.h.frames
            && I32(h.i1.frames - h.i0.frames) == frames
  {
    hide U32, I32;
    TrueDifference(ideal.o.i1.frames, ideal.o.i0.frames);
    TrueDifference(ideal.o.i0.frames, ideal.h.frames);
  }

  lemma TrueDifference(a: int, b: int)
    requires FitsInt32(a - b)
    ensures I32(U32(a) - U32(b)) == a - b
  {
    SignedDifference(a, b);
    SignedOfWrapped(a - b);
  }

  /** So the error is the true one, and booting corrects both counters alike. */
  lemma CycleRefines(code: Loop, ideal: Loop, frames: uint32, last: nat, t: nat, undefined: real)
    requires Refines(code, ideal, frames, last) && frames < 0x8000_0000
    requires Tame(ideal, frames, last, Cycle(t, true, 0.0))
    ensures var h, ih := LoadOverbridge(code.h, code.o), LoadOverbridge(ideal.h, ideal.o);
            && RawError(h, t, undefined) == Ideal.Error(ih, Seconds(t))
            && SameHost(HostUpdateError(h, t, undefined), Ideal.UpdateError(ih, Seconds(t)))
  {
    hide Proportion, HostOffset, HostSpan, Round, Backlog;
    var h, ih := LoadOverbridge(code.h, code.o), LoadOverbridge(ideal.h, ideal.o);
    OffsetsRefine(code, ideal, frames, last, t);
    CountersRefine(code, ideal, frames, last, t);
    var err := Ideal.Error(ih, Seconds(t));
    assert RawError(h, t, undefined) == err;
    hide RawError, Ideal.Error;
    if ideal.h.boot {
      ModSum(ideal.h.frames, Round(err));
    }
  }

  lemma SameAfterFilter(code: Host, ideal: Host)
    requires SameHost(code, ideal)
    ensures SameHost(HostUpdate(code), Ideal.Correct(ideal))
  {
    TowardIsMean(code.z1, code.w0, Product(code.w1, code.err));
    TowardIsMean(code.z2, code.w0, Toward(code.z1, code.w0, Product(code.w1, code.err)));
    hide Toward, Product, Ideal.Mean;
    assert HostUpdate(code).ratio == Ideal.Correct(ideal).ratio;
  }

  lemma TowardIsMean(z: real, w: real, target: real)
    ensures Toward(z, w, target) == Ideal.Mean(z, w, target)
  {
  }

  lemma ResetRefines(code: Host, ideal: Host, e: Event)
    requires SameHost(code, ideal) && e.Reset?
    ensures SameHost(ResetHost(code, e), Signed(ResetHost(ideal, e)))
  {
    hide Counter, U32, I32;
    SignedIsSame(ResetHost(ideal, e).frames);
    assert U32(ResetHost(code, e).frames) == ResetHost(code, e).frames by { SmallStays(ResetHost(code, e).frames); }
  }

  lemma SmallStays(n: uint32)
    ensures U32(n) == n
  {
  }

  lemma StepRefines(code: Loop, ideal: Loop, frames: uint32, last: nat, e: Event)
    requires Refines(code, ideal, frames, last) && frames < 0x8000_0000
    requires Tame(ideal, frames, last, e)
    ensures Refines(Step(code, frames, e), IdealStep(ideal, frames, e), frames, if e.Arrival? then e.t else last)
  {
    match e {
      case Start =>
        hide Window, U32;
      case Arrival(t) =>
        ArrivalRefines(code.o, ideal.o, frames, last, t);
      case Reader(n) =>
        ModSum(ideal.h.frames, n);
      case Cycle(t, filtered, undefined) =>
        CycleRefines(code, ideal, frames, last, t, undefined);
        hide Ideal.UpdateError, Ideal.Correct, HostUpdateError, HostUpdate;
        SameAfterFilter(HostUpdateError(LoadOverbridge(code.h, code.o), t, undefined),
                        Ideal.UpdateError(LoadOverbridge(ideal.h, ideal.o), Seconds(t)));
      case Filter(bw, n, rate, decay) =>
      case Reset(_, _, _, _) =>
        ResetRefines(code.h, ideal.h, e);
    }
  }

  /** Over any run in which the environment keeps its promises, the code refines the ideal loop. */
  lemma {:induction false} RunRefines(code: Loop, ideal: Loop, frames: uint32, start: nat, events: seq<Event>)
    requires Refines(code, ideal, frames, start) && frames < 0x8000_0000
    requires TameRun(ideal, frames, start, events)
    ensures Refines(Run(code, frames, events), IdealRun(ideal, frames, events), frames, LastArrival(events, start))
  {
    if events != [] {
      var before, e := events[..|events| - 1], events[|events| - 1];
      RunRefines(code, ideal, frames, start, before);
      StepRefines(Run(code, frames, before), IdealRun(ideal, frames, before), frames, LastArrival(before, start), e);
    }
  }

  /** In particular: the error and the ratio that the host uses are the ideal ones at every point of the run. */
  lemma ErrorsAndRatiosAreIdeal(code: Loop, frames: uint32, start: nat, events: seq<Event>)
    requires frames < 0x8000_0000 && code.o.boot && 0 <= code.h.frames < TWO32
    requires TameRun(IdealOf(code), frames, start, events)
    ensures var c, i := Run(code, frames, events), IdealRun(IdealOf(code), frames, events);
            && c.h.err == i.h.err && c.h.ratio == i.h.ratio
            && c.o.dt == i.o.dt
            && c.h.frames == U32(i.h.frames)
  {
    SignedIsSame(code.h.frames);
    SmallStays(code.h.frames);
    hide I32, U32;
    RunRefines(code, IdealOf(code), frames, start, events);
  }

  // ----- The frame counter -----

  /** The frames that the reader has handed on. */
  function ReadFrames(events: seq<Event>): nat {
    if events == [] then 0
    else ReadFrames(events[..|events| - 1]) + (match events[|events| - 1] case Reader(n) => n case _ => 0)
  }

  predicate NoReset(events: seq<Event>) {
    forall k :: 0 <= k < |events| ==> !events[k].Reset?
  }

  /** Once the host has booted, its counter is what booting left plus every frame read since, modulo 2^32. */
  lemma {:induction false} CounterIsLedger(s: Loop, frames: uint32, events: seq<Event>)
    requires !s.h.boot && NoReset(events) && 0 <= s.h.frames < TWO32
    ensures var n := Run(s, frames, events);
            !n.h.boot && n.h.frames == U32(s.h.frames + ReadFrames(events))
  {
    if events != [] {
      var before, e := events[..|events| - 1], events[|events| - 1];
      CounterIsLedger(s, frames, before);
      match e {
        case Reader(n) => ModSum(s.h.frames + ReadFrames(before), n);
        case _ => hide RawError, HostFilter;
      }
    }
  }

  /** The two points of a line that has booted are one transfer apart. */
  predicate Apart(o: Overbridge, frames: uint32) {
    !o.boot ==> I32(o.i1.frames - o.i0.frames) == frames
  }

  /** From boot on this holds for ever, over any number of resets and of wraps of the counters. */
  lemma {:induction false} PointsStayApart(s: Loop, frames: uint32, events: seq<Event>)
    requires s.o.boot && frames < 0x8000_0000
    ensures Apart(Run(s, frames, events).o, frames)
  {
    if events != [] {
      var before, e := events[..|events| - 1], events[|events| - 1];
      PointsStayApart(s, frames, before);
      if e.Arrival? { OneTransferApart(Booted(Run(s, frames, before).o, frames, WallClock(e.t)).i1.frames, frames); }
      hide WallClock, HostUpdateError, HostUpdate, CountFrames;
    }
  }

  lemma OneTransferApart(i1: int, frames: uint32)
    requires frames < 0x8000_0000
    ensures I32(U32(i1 + frames) - i1) == frames
  {
    var k := (i1 + frames) / TWO32;
    assert U32(i1 + frames) - i1 == frames - k * TWO32;
    SignedModulo(frames, -k);
  }

  // ----- Booting -----

  /** Whatever the counter held, booting leaves less than half a frame of error... */
  lemma BootAbsorbsOffset(h: Host, t: nat, undefined: real)
    requires h.boot && FitsInt32(Round(RawError(h, t, undefined)))
    ensures -0.5 <= HostUpdateError(h, t, undefined).err < 0.5
    ensures !HostUpdateError(h, t, undefined).boot
  {
  }

  /** ...and measuring again from the corrected counter gives that same error, exactly when the
      rounded remainder of the error fits an int. */
  lemma BootIsStable(h: Host, t: nat, undefined: real)
    requires h.boot && FitsInt32(Round(RawError(h, t, undefined)))
    ensures var b := HostUpdateError(h, t, undefined);
            RawError(b, t, undefined) == b.err <==>
              FitsInt32(-Round(Interpolated(h, t, undefined) - h.targetDelay as real))
  {
    var b := HostUpdateError(h, t, undefined);
    var rest := Interpolated(h, t, undefined) - h.targetDelay as real;
    var n := Round(RawError(h, t, undefined));
    RoundShifts(rest, Backlog(h));
    assert n == Backlog(h) + Round(rest);
    assert Interpolated(b, t, undefined) == Interpolated(h, t, undefined);
    BacklogAfterCorrection(h.i0.frames, h.frames, n);
    SignedOfWrapped(-Round(rest));
  }

  /** When the first error is too large: the counter k as it is after a reset, early in the life of the line. The
      error fits an int exactly when the rounded interpolation does not carry it across 2^31. */
  lemma BootFits(h: Host, t: nat, undefined: real)
    requires 0 <= h.i0.frames < 0x4000_0000 && 0 <= h.frames < TWO32
    requires -0x4000_0000 < Round(Interpolated(h, t, undefined) - h.targetDelay as real) < 0x4000_0000
    ensures var k, i0, x := h.frames, h.i0.frames, Round(Interpolated(h, t, undefined) - h.targetDelay as real);
            FitsInt32(Round(RawError(h, t, undefined)))
            <==> (k <= 0x8000_0000 + i0 <==> k <= 0x8000_0000 + i0 + x)
  {
    var rest := Interpolated(h, t, undefined) - h.targetDelay as real;
    RoundShifts(rest, Backlog(h));
    assert RawError(h, t, undefined) == Backlog(h) as real + rest;
    hide Interpolated, Round;
  }

  /** So the counter that the code computes is absorbed at every rate from 48 kHz on that is not near 96 kHz. */
  lemma CounterIsAbsorbed(h: Host, t: nat, undefined: real, inputFrames: nat, ratio: real, wild: uint32)
    requires 1.0 <= ratio <= 1.9 || ratio >= 2.1
    requires 0 < inputFrames <= 0x10_0000 && h.frames == Counter(inputFrames, ratio, wild)
    requires 0 <= h.i0.frames <= 0x100_0000
    requires -0x100_0000 <= Round(Interpolated(h, t, undefined) - h.targetDelay as real) <= 0x100_0000
    ensures FitsInt32(Round(RawError(h, t, undefined)))
  {
    CounterIsDefined(inputFrames, ratio, wild, wild);
    assert U32(0 - inputFrames) == TWO32 - inputFrames;
    FarFromHalf((TWO32 - inputFrames) as real, ratio);
    hide Counter, Interpolated, RawError, Round, U32;
    BootFits(h, t, undefined);
  }

  lemma FarFromHalf(n: real, ratio: real)
    requires 4293918720.0 <= n <= 4294967296.0 && ratio >= 1.0
    ensures ratio <= 1.9 ==> n / ratio >= 2259000000.0
    ensures ratio >= 2.1 ==> n / ratio <= 2046000000.0
  {
    var q := n / ratio;
    assert q * ratio == n;
    if q < 2259000000.0 && ratio <= 1.9 {
      PositiveProduct(2259000000.0 - q, ratio, 2259000000.0 * ratio - n);
    }
    if q > 2046000000.0 && ratio >= 2.1 {
      PositiveProduct(q - 2046000000.0, ratio, n - 2046000000.0 * ratio);
    }
  }

  /** At 96 kHz it is not: with transfers of 168 frames and cycles of 256, one transfer after the reset, the error
      does not fit, and booting leaves 468 frames of it. */
  lemma BootCanMissTheError(wild: uint32) returns (h: Host, t: nat)
    ensures h == HostReset(h, 96000.0, OB_SAMPLE_RATE, 256, 168, wild) && h.boot
    ensures h.i0.frames == 168 && h.i1.frames == 336 && HostSpan(h) == 0.0035
    ensures RawError(h, t, 0.0) == -2147484116.0 && !FitsInt32(Round(RawError(h, t, 0.0)))
    ensures HostUpdateError(h, t, 0.0).err == -468.0
  {
    t := 0;
    h := Host(2.0, 4.0, 1.0, 0x8000_0000 - 84, 0.0, 0.0, 0.0, 720, 0.0, 0.0, 0.0, 0.0, Instant(0.0, 168),
              Instant(0.0035, 336), true);
    assert Counter(168, 2.0, wild) == 0x8000_0000 - 84;
    assert HostSpan(h) == 0.0035 && HostOffset(h, t) == 0.0;
    assert Interpolated(h, t, 0.0) == 0.0;
    assert Backlog(h) == -2147483396;
    hide Counter;
  }

  /** And measuring again does not always give the same error: here a transfer of 224 frames seems to have come
      within 20 microseconds, and the interpolation over 200 seconds reaches beyond 31 bits, while the backlog
      makes up for it. */
  lemma BootCanBeUnstable() returns (h: Host, t: nat)
    ensures h.boot && I32(h.i1.frames - h.i0.frames) == 224 && HostSpan(h) > 0.0
    ensures FitsInt32(Round(RawError(h, t, 0.0)))
    ensures var b := HostUpdateError(h, t, 0.0); RawError(b, t, 0.0) != b.err
  {
    h := Host(1.0, 2.0, 0.5, 0x8000_0000, 0.0, 0.0, 0.0, 0, 0.0, 0.0, 0.0, 0.0, Instant(0.0, 0),
              Instant(0.00002, 224), true);
    t := 200_000_000;
    assert HostSpan(h) == 0.00002 && HostOffset(h, t) == 200.0;
    assert Interpolated(h, t, 0.0) == 2240000000.0;
    assert RawError(h, t, 0.0) == 92516352.0;
    BootIsStable(h, t, 0.0);
  }

  lemma RoundShifts(r: real, n: int)
    ensures Round(n as real + r) == n + Round(r)
  {
  }

  lemma BacklogAfterCorrection(i0: int, frames: int, n: int)
    ensures I32(i0 - U32(frames + n)) == I32(I32(i0 - frames) - n)
  {
    var a := i0 - frames;
    assert U32(frames + n) == frames + n - ((frames + n) / TWO32) * TWO32;
    assert exists k: int :: I32(a) == a - k * TWO32 by {
      var k := if a % TWO32 < 0x8000_0000 then a / TWO32 else a / TWO32 + 1;
      assert I32(a) == a - k * TWO32;
    }
    var k: int :| I32(a) == a - k * TWO32;
    SignedModulo(a - n, (frames + n) / TWO32);
    SignedModulo(a - n, -k);
  }

  lemma SignedModulo(a: int, k: int)
    ensures I32(a + k * TWO32) == I32(a)
  {
    assert (a + k * TWO32) % TWO32 == a % TWO32;
  }
}
