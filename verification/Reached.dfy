/** Runs that lead from an initial world to the states that matter: to the running status, to a stop that
    is never noticed, and to a ring that holds a part of a frame. */
module Reached {
  import opened Words
  import opened Reals
  import opened Status
  import opened Ring
  import opened Dll
  import opened Requests
  import opened Machine
  import DllRefinement
  import Earned
  import Stopping
  import Transport

  /** A run with JACK's times in order ends there. */
  ghost predicate Reaches(c: Config, w: World, n: World)
    requires ValidConfig(c)
  {
    exists events :: Path(c, w, n, events)
  }

  predicate Path(c: Config, w: World, n: World, events: seq<Event>)
    requires ValidConfig(c)
  {
    ValidEvents(c, events) && Earned.PunctualRun(c, w, events) && Run(c, w, events) == n
  }

  lemma StartsThere(c: Config, w: World)
    requires ValidConfig(c)
    ensures Reaches(c, w, w)
  {
    assert Path(c, w, w, []);
  }

  lemma Go(c: Config, w: World, n: World, ev: Event) returns (m: World)
    requires ValidConfig(c) && Reaches(c, w, n) && ValidEvent(c, ev) && Earned.Punctual(n.h, ev)
    ensures m == Next(c, n, ev) && Reaches(c, w, m)
  {
    var events :| Path(c, w, n, events);
    m := Next(c, n, ev);
    OneMore(c, w, n, events, ev);
  }

  lemma OneMore(c: Config, w: World, n: World, events: seq<Event>, ev: Event)
    requires ValidConfig(c) && Path(c, w, n, events) && ValidEvent(c, ev) && Earned.Punctual(n.h, ev)
    ensures Path(c, w, Next(c, n, ev), events + [ev])
  {
    hide Next, Earned.Punctual, ValidEvent;
    assert (events + [ev])[..|events|] == events;
  }

  lemma LastOne(c: Config, n: World, m: World, events: seq<Event>) returns (before: World)
    requires ValidConfig(c) && Path(c, n, m, events) && events != []
    ensures Path(c, n, before, events[..|events| - 1])
    ensures var ev := events[|events| - 1];
            ValidEvent(c, ev) && Earned.Punctual(before.h, ev) && m == Next(c, before, ev)
  {
    hide Next, Earned.Punctual, ValidEvent;
    before := Run(c, n, events[..|events| - 1]);
  }

  lemma NoOne(c: Config, n: World, m: World)
    requires ValidConfig(c) && Path(c, n, m, [])
    ensures m == n
  {
  }

  lemma LastOfSum(xs: seq<Event>, ys: seq<Event>)
    requires ys != []
    ensures (xs + ys[..|ys| - 1]) + [ys[|ys| - 1]] == xs + ys
  {
  }

  lemma {:induction false} PathsCompose(c: Config, w: World, n: World, m: World, xs: seq<Event>, ys: seq<Event>)
    requires ValidConfig(c) && Path(c, w, n, xs) && Path(c, n, m, ys)
    ensures Path(c, w, m, xs + ys)
    decreases |ys|
  {
    hide Path, Next, ValidEvent, Earned.Punctual;
    if ys == [] {
      NoOne(c, n, m);
      assert xs + ys == xs;
    } else {
      var before := LastOne(c, n, m, ys);
      PathsCompose(c, w, n, before, xs, ys[..|ys| - 1]);
      OneMore(c, w, before, xs + ys[..|ys| - 1], ys[|ys| - 1]);
      LastOfSum(xs, ys);
    }
  }

  lemma Join(c: Config, w: World, n: World, m: World)
    requires ValidConfig(c) && Reaches(c, w, n) && Reaches(c, n, m)
    ensures Reaches(c, w, m)
  {
    var xs :| Path(c, w, n, xs);
    var ys :| Path(c, n, m, ys);
    PathsCompose(c, w, n, m, xs, ys);
  }

  // ----- Moves -----

  /** The device accepts every submission; every transfer that it delivers, at this time, is complete. */
  function Device(c: Config, pick: Pick, now: nat): Usb {
    Usb(pick, true, true, Zeros(O2hTransfer(c)), Zeros(H2oTransfer(c)), now)
  }

  lemma DeviceGoes(c: Config, w: World, n: World, pick: Pick, now: nat) returns (m: World)
    requires ValidConfig(c) && Reaches(c, w, n)
    ensures Reaches(c, w, m) && m.h == n.h && (m.sh, m.e) == EngineStep(c, n.sh, n.e, Device(c, pick, now))
  {
    assert ValidEvent(c, EngineMoves(Device(c, pick, now)));
    hide EngineStep, Reaches, ValidEvent;
    m := Go(c, w, n, EngineMoves(Device(c, pick, now)));
  }

  lemma EngineGoes(c: Config, w: World, n: World) returns (m: World)
    requires ValidConfig(c) && Reaches(c, w, n)
    ensures Reaches(c, w, m) && m.h == n.h && (m.sh, m.e) == EngineStep(c, n.sh, n.e, Device(c, NoEvent, 0))
  {
    hide EngineStep, Reaches;
    m := DeviceGoes(c, w, n, NoEvent, 0);
  }

  lemma HostDoes(c: Config, w: World, n: World, x: Input) returns (m: World)
    requires ValidConfig(c) && c.dll && Reaches(c, w, n) && ValidInput(x)
    requires n.h.pc.Idle? && x.call.Compute? ==> Earned.NotBefore(n.h.log, x.call.now)
    ensures Reaches(c, w, m) && m.e == n.e && (m.sh, m.h) == HostStep(c, n.sh, n.h, x)
  {
    hide HostStep, Reaches, Earned.NotBefore;
    m := Go(c, w, n, HostMoves(x));
  }

  /** A call that sets no filter, at a rate at which the counter is defined. */
  function Asking(call: Call, data: seq<byte>): Input {
    Input(call, 0.0, 0.0, 0, data)
  }

  /** A cycle whose filter, if it sets one, has this decay. */
  function Filtering(now: nat, decay: real): Input {
    Input(Compute(now, false), 0.0, decay, 0, [])
  }

  lemma HostGoes(c: Config, w: World, n: World, call: Call, data: seq<byte>) returns (m: World)
    requires ValidConfig(c) && c.dll && Reaches(c, w, n) && ValidInput(Asking(call, data))
    requires n.h.pc.Idle? && call.Compute? ==> Earned.NotBefore(n.h.log, call.now)
    ensures Reaches(c, w, m) && m.e == n.e && (m.sh, m.h) == HostStep(c, n.sh, n.h, Asking(call, data))
  {
    hide HostStep, Reaches, Earned.NotBefore;
    m := HostDoes(c, w, n, Asking(call, data));
  }

  // ----- A stop that is never noticed -----

  /** The engine's thread publishes READY and waits. */
  lemma Publishes(c: Config, w: World, n: World) returns (m: World)
    requires ValidConfig(c) && c.dll && Reaches(c, w, n) && n.e.pc == InitLine && n.sh.status == EsStop
    ensures Reaches(c, w, m) && m.h == n.h && m.e.pc == AwaitSteady
    ensures m.e.inFlight == n.e.inFlight + 1 && m.e.outFlight == n.e.outFlight + 1
    ensures m.sh == n.sh.(status := EsReady, line := OverbridgeInit(n.sh.line, OB_SAMPLE_RATE, c.frames))
  {
    hide Reaches, H2oTransfer, O2hTransfer, Zeros, OverbridgeInit;
    m := EngineGoes(c, w, n);
    m := EngineGoes(c, w, m);
    m := EngineGoes(c, w, m);
    m := EngineGoes(c, w, m);
  }

  /** From every initial world a stop can find the thread spinning, which then goes on for ever. */
  lemma StopCanBeMissed(c: Config, w: World) returns (n: World)
    requires ValidConfig(c) && c.dll && Initial(c, w)
    ensures Reaches(c, w, n) && Stopped(n.sh.status)
    ensures forall events :: Stopping.Spinning(c, Run(c, n, events).e)
  {
    StartsThere(c, w);
    n := Publishes(c, w, w);
    hide Initial, Reaches, OverbridgeInit;
    n := Go(c, w, n, StopRequested);
    forall events
      ensures Stopping.Spinning(c, Run(c, n, events).e)
    {
      Stopping.StopWhileAwaitingHangs(c, n, events);
    }
  }

  // ----- The host's loop while no transfer comes -----

  /** The stages of the filter are small, the last one by a budget, and so are the gains. */
  predicate Slow(d: Host, budget: real) {
    && -0.001 <= d.z1 <= 0.001 && -0.001 <= d.z2 <= 0.001 && -budget <= d.z3 <= budget
    && 0.9 <= d.ratio <= 1.1 && d.maxRatio == 2.0 && d.minRatio == 0.5
  }

  predicate Gentle(d: Host) {
    0.0 <= d.w0 <= 1.0 && 0.0 <= d.w1 <= 0.001 && 0.0 <= d.w2 <= 0.001
  }

  /** The host has not measured yet, and what it will measure at time t fits. */
  predicate Measurable(d: Host, o: Overbridge, t: nat) {
    var h := LoadOverbridge(d, o);
    && d.boot && FitsInt32(Round(RawError(h, t, 0.0)))
    && FitsInt32(-Round(Interpolated(h, t, 0.0) - h.targetDelay as real))
  }

  /** The host has measured, and whenever it measures again at that time of the clock it finds the same. */
  predicate Settled(d: Host, o: Overbridge, t: nat) {
    !d.boot && -0.5 <= RawError(LoadOverbridge(d, o), t, 0.0) < 0.5
  }

  lemma FirstMeasure(d: Host, o: Overbridge, t: nat)
    requires Measurable(d, o, t)
    ensures var m := HostUpdateError(LoadOverbridge(d, o), t, 0.0);
            && Settled(m, o, t)
            && m == d.(frames := m.frames, err := m.err, boot := false, i0 := o.i0, i1 := o.i1)
  {
    var h := LoadOverbridge(d, o);
    DllRefinement.BootAbsorbsOffset(h, t, 0.0);
    DllRefinement.BootIsStable(h, t, 0.0);
    hide RawError, Interpolated;
    var m := HostUpdateError(h, t, 0.0);
    assert LoadOverbridge(m, o) == m;
  }

  /** The 28-bit clock shows the same time again after one turn. */
  lemma SameTimeAgain(d: Host, o: Overbridge, t: nat, t': nat)
    requires t' % CLOCK_SPAN == t % CLOCK_SPAN && Settled(d, o, t)
    ensures Settled(d, o, t')
  {
    assert WallClock(t') == WallClock(t);
    assert HostOffset(LoadOverbridge(d, o), t') == HostOffset(LoadOverbridge(d, o), t);
    hide HostOffset, HostSpan, Backlog, Proportion;
  }

  lemma LaterMeasure(d: Host, o: Overbridge, t: nat)
    requires Settled(d, o, t)
    ensures var m := HostUpdateError(LoadOverbridge(d, o), t, 0.0);
            && Settled(m, o, t) && -0.5 <= m.err < 0.5
            && m == d.(err := m.err, i0 := o.i0, i1 := o.i1)
  {
    var h := LoadOverbridge(d, o);
    var m := HostUpdateError(h, t, 0.0);
    SameError(h, LoadOverbridge(m, o), t);
    hide RawError;
  }

  /** The measurement depends on the counters, the target and the two points. */
  lemma SameError(h: Host, m: Host, t: nat)
    requires m.frames == h.frames && m.targetDelay == h.targetDelay && m.i0 == h.i0 && m.i1 == h.i1
    ensures RawError(m, t, 0.0) == RawError(h, t, 0.0)
  {
    assert Interpolated(m, t, 0.0) == Interpolated(h, t, 0.0);
    assert Backlog(m) == Backlog(h);
    hide Interpolated, Backlog;
  }

  lemma TowardBetween(z: real, w: real, target: real, bound: real)
    requires 0.0 <= w <= 1.0 && -bound <= z <= bound && -bound <= target <= bound
    ensures -bound <= Toward(z, w, target) <= bound
  {
    NonNegativeProduct(1.0 - w, bound - z);
    NonNegativeProduct(w, bound - target);
    NonNegativeProduct(1.0 - w, bound + z);
    NonNegativeProduct(w, bound + target);
    Blend(z, w, target, bound);
  }

  lemma Blend(z: real, w: real, target: real, bound: real)
    ensures bound - Toward(z, w, target) == (1.0 - w) * (bound - z) + w * (bound - target)
    ensures bound + Toward(z, w, target) == (1.0 - w) * (bound + z) + w * (bound + target)
  {
  }

  /** One step of the filter. */
  lemma SlowUpdate(d: Host, budget: real)
    requires Slow(d, budget) && Gentle(d) && -0.5 <= d.err < 0.5 && 0.0 <= budget <= 0.01
    ensures var u := HostUpdate(d);
            && Slow(u, budget + 0.001) && !HostClamps(d)
            && u == d.(z1 := u.z1, z2 := u.z2, z3 := u.z3, ratio := u.ratio)
  {
    hide Product, Toward;
    SmallProducts();
    BoundedProduct(d.w1, d.err, 0.001, 0.5);
    var z1 := Toward(d.z1, d.w0, Product(d.w1, d.err));
    var z2 := Toward(d.z2, d.w0, z1);
    TowardBetween(d.z1, d.w0, Product(d.w1, d.err), 0.001);
    TowardBetween(d.z2, d.w0, z1, 0.001);
    assert -0.001 <= z1 <= 0.001 && -0.001 <= z2 <= 0.001;
    BoundedProduct(d.w2, z2, 0.001, 1.0);
  }

  lemma SmallProducts()
    ensures Product(0.001, 0.5) == 0.0005 && Product(0.001, 1.0) == 0.001
  {
  }

  lemma SlowFilter(d: Host, bw: real, budget: real, decay: real)
    requires Slow(d, budget) && 0.0 <= bw <= 1.0 && 0.0 <= decay <= 1.0
    ensures var f := HostSetLoopFilter(d, bw, 1, 48000.0, decay);
            Slow(f, budget) && Gentle(f) && f == d.(w0 := f.w0, w1 := f.w1, w2 := f.w2)
  {
    var w := 2.0 * PI * bw * d.ratio / 48000.0;
    var x := Product(bw, d.ratio);
    BoundedProduct(bw, d.ratio, 1.0, 1.1);
    NonNegativeProduct(bw, d.ratio);
    assert Product(1.0, 1.1) == 1.1;
    assert 2.0 * PI * bw * d.ratio == 2.0 * PI * x;
  }

  /** Setting the filter or running it does not touch what the measurement depends on. */
  lemma StaysSettled(d: Host, n: Host, o: Overbridge, t: nat)
    requires Settled(d, o, t) && n.frames == d.frames && n.targetDelay == d.targetDelay && n.boot == d.boot
    ensures Settled(n, o, t)
  {
    SameError(LoadOverbridge(d, o), LoadOverbridge(n, o), t);
    hide RawError;
  }

  // ----- Cycles -----

  /** Between two calls, or in one: JACK has cycles of one frame at 48 kHz, and the filter is slow. */
  predicate Placid(h: HostThread, budget: real) {
    && h.bufsize == 1 && h.samplerate == 48000.0 && h.account.acc == 0.0
    && Slow(h.dll, budget) && h.h2oRatio == 1.0 / h.dll.ratio
  }

  /** Waiting for a cycle at time t. */
  ghost predicate Waits(n: World, t: nat, budget: real) {
    && n.h.pc == Idle && Placid(n.h, budget) && Earned.NotBefore(n.h.log, t)
    && (if n.h.rs == RsReady then Measurable(n.h.dll, n.sh.line, t)
        else Settled(n.h.dll, n.sh.line, t) && Gentle(n.h.dll))
  }

  /** The host's thread samples both statuses. */
  lemma Samples(c: Config, w: World, n: World, now: nat) returns (m: World)
    requires ValidConfig(c) && c.dll && Reaches(c, w, n) && n.h.pc == Idle && Earned.NotBefore(n.h.log, now)
    ensures Reaches(c, w, m) && m.sh == n.sh && m.e == n.e
    ensures var es, rs := n.sh.status, n.h.rs;
            m.h == n.h.(pc := if rs != RsReady || Level(es) > Level(EsBoot) then Load(now, false, es, rs)
                              else if es == EsReady then NotifySteady
                              else Idle)
  {
    hide Reaches, Cycle, Earned.NotBefore;
    m := HostGoes(c, w, n, Compute(now, false), []);
    m := HostGoes(c, w, m, Compute(now, false), []);
    m := HostGoes(c, w, m, Compute(now, false), []);
  }

  /** The point that a cycle decides for, where all is well. */
  function Decided(rs: ResamplerStatus, now: nat): HostPc {
    match rs
    case RsReady => SetBoot(now)
    case RsBoot => SetTune(now)
    case RsTune => RunEngine
    case _ => Idle
  }

  predicate LongEnough(h: HostThread, now: nat) {
    && (h.rs == RsReady || h.rs == RsBoot || h.rs == RsTune)
    && (h.rs == RsBoot ==> Elapsed(now, h.phaseStart) > BOOTING_PERIOD_US)
    && (h.rs == RsTune ==> Elapsed(now, h.phaseStart) > TUNING_PERIOD_US)
  }

  /** What a cycle leaves. */
  ghost predicate CycleDone(h: HostThread, d: HostThread, o: Overbridge, now: nat, budget: real) {
    && d.rs == h.rs && d.phaseStart == h.phaseStart && d.pc == Decided(h.rs, now) && d.reading == h.reading
    && Placid(d, budget) && Gentle(d.dll) && Settled(d.dll, o, now)
    && (exists e: Entry :: d.log == h.log + [e] && e.Cycled? && e.now == now)
  }

  lemma WithFilterIsSlow(h: HostThread, bw: real, budget: real, decay: real)
    requires Placid(h, budget) && 0.0 <= bw <= 1.0 && 0.0 <= decay <= 1.0
    ensures var f := WithFilter(h, bw, decay);
            && Placid(f, budget) && Gentle(f.dll) && f == h.(dll := f.dll)
            && f.dll == h.dll.(w0 := f.dll.w0, w1 := f.dll.w1, w2 := f.dll.w2)
  {
    SlowFilter(h.dll, bw, budget, decay);
    hide HostSetLoopFilter, Slow, Gentle;
    assert Slow(h.dll, budget) && WithFilter(h, bw, decay).dll.ratio == h.dll.ratio;
  }

  lemma CycleBoots(h: HostThread, o: Overbridge, now: nat, budget: real, decay: real)
    requires 0.0 <= decay <= 1.0 && Placid(h, budget) && h.rs == RsReady && Measurable(h.dll, o, now)
    ensures CycleDone(h, Cycle(h, o, now, false, EsWait, RsReady, Filtering(now, decay)), o, now, budget)
  {
    FirstMeasure(h.dll, o, now);
    hide HostUpdateError, Settled, Measurable, WithFilter, Gentle;
    var m := Measured(h, o, now, 0.0);
    var l := Logged(m, now, false, false, Boots);
    assert Placid(m, budget);
    WithFilterIsSlow(l, 1.0, budget, decay);
    var f := WithFilter(l, 1.0, decay);
    assert f.log == h.log + [Cycled(now, false, false, m.dll.err, m.rs, Boots)];
    StaysSettled(m.dll, f.dll, o, now);
  }

  lemma CycleDecides(h: HostThread, o: Overbridge, now: nat, es: EngineStatus, budget: real, decay: real)
    requires 0.0 <= decay <= 1.0 && Placid(h, budget)
    requires (h.rs == RsBoot || h.rs == RsTune) && LongEnough(h, now) && 0.0 <= budget <= 0.01
    requires Settled(h.dll, o, now) && Gentle(h.dll)
    ensures CycleDone(h, Cycle(h, o, now, false, es, h.rs, Filtering(now, decay)), o, now, budget + 0.001)
  {
    LaterMeasure(h.dll, o, now);
    var m := Measured(h, o, now, 0.0);
    assert Slow(m.dll, budget) && Gentle(m.dll);
    hide HostUpdateError, Settled;
    SlowUpdate(m.dll, budget);
    hide HostUpdate, HostClamps, Gentle;
    var r := WithRatios(m.(dll := HostUpdate(m.dll)));
    StaysSettled(m.dll, r.dll, o, now);
    DecisionDone(r, o, now, budget + 0.001, decay);
    hide Decide, LongEnough;
    assert CycleDone(r, Decide(r, now, h.rs, false, false, decay), o, now, budget + 0.001);
  }

  lemma DecisionDone(h: HostThread, o: Overbridge, now: nat, budget: real, decay: real)
    requires 0.0 <= decay <= 1.0 && Placid(h, budget)
    requires (h.rs == RsBoot || h.rs == RsTune) && LongEnough(h, now) && -0.5 <= h.dll.err < 0.5
    requires Settled(h.dll, o, now)
    ensures CycleDone(h, Decide(h, now, h.rs, false, false, decay), o, now, budget)
  {
    TunedMeansBelowOneFrame(h.dll, BOOTING_ERROR);
    TunedMeansBelowOneFrame(h.dll, TUNING_ERROR);
    hide Tuned, Settled, WithFilter, Elapsed, Gentle, Slow;
    var act, bw := if h.rs == RsBoot then Tunes else Runs, if h.rs == RsBoot then 0.5 else 0.05;
    var l := Logged(h, now, false, false, act);
    assert Placid(l, budget);
    WithFilterIsSlow(l, bw, budget, decay);
    var f := WithFilter(l, bw, decay);
    assert f.log == h.log + [Cycled(now, false, false, h.dll.err, h.rs, act)];
    StaysSettled(h.dll, f.dll, o, now);
  }

  lemma LaterEntry(log: seq<Entry>, e: Entry, now: nat)
    requires Earned.NotBefore(log, now) && e.Cycled? && e.now == now
    ensures Earned.NotBefore(log + [e], now)
  {
  }

  /** One cycle: the two samples, the measurement and the decision. */
  lemma CycleGoes(c: Config, w: World, n: World, now: nat, budget: real, decay: real) returns (m: World)
    requires ValidConfig(c) && c.dll && Reaches(c, w, n) && Waits(n, now, budget) && 0.0 <= budget <= 0.01
    requires n.sh.status == EsWait && LongEnough(n.h, now) && 0.0 <= decay <= 1.0
    ensures Reaches(c, w, m) && m.sh == n.sh && m.e == n.e && Earned.NotBefore(m.h.log, now)
    ensures CycleDone(n.h, m.h, n.sh.line, now, budget + 0.001)
  {
    hide Reaches, Cycle, Elapsed, Earned.NotBefore, Settled, Measurable, Gentle;
    m := Samples(c, w, n, now);
    var h := m.h;
    if n.h.rs == RsReady {
      CycleBoots(h, n.sh.line, now, budget, decay);
    } else {
      CycleDecides(h, n.sh.line, now, EsWait, budget, decay);
    }
    var d := Cycle(h, n.sh.line, now, false, EsWait, n.h.rs, Filtering(now, decay));
    var e :| d.log == h.log + [e] && e.Cycled? && e.now == now;
    LaterEntry(h.log, e, now);
    hide LongEnough, Waits;
    m := HostDoes(c, w, m, Filtering(now, decay));
  }

  // ----- From READY to RUN -----

  /** A cycle, and the change of phase that it decides; then a turn of the clock later the next one can come. */
  lemma PhaseGoes(c: Config, w: World, n: World, now: nat, budget: real, decay: real) returns (m: World)
    requires ValidConfig(c) && c.dll && Reaches(c, w, n) && Waits(n, now, budget) && 0.0 <= budget <= 0.01
    requires n.sh.status == EsWait && LongEnough(n.h, now) && n.h.rs != RsTune && now + CLOCK_SPAN < TWO64
    requires 0.0 <= decay <= 1.0
    ensures Reaches(c, w, m) && m.sh == n.sh && m.e == n.e && m.h.reading == n.h.reading
    ensures m.h.rs == (if n.h.rs == RsReady then RsBoot else RsTune) && m.h.phaseStart == now
    ensures Waits(m, now + CLOCK_SPAN, budget + 0.001) && LongEnough(m.h, now + CLOCK_SPAN)
  {
    hide Reaches, Earned.NotBefore, Cycle, Settled, Gentle, Slow, Measurable;
    m := CycleGoes(c, w, n, now, budget, decay);
    m := HostGoes(c, w, m, Compute(now, false), []);
    SameTimeAgain(m.h.dll, m.sh.line, now, now + CLOCK_SPAN);
    LaterTime(m.h.log, now, now + CLOCK_SPAN);
    assert Elapsed(now + CLOCK_SPAN, now) == CLOCK_SPAN;
  }

  lemma LaterTime(log: seq<Entry>, now: nat, later: nat)
    requires Earned.NotBefore(log, now) && now <= later < TWO64
    ensures Earned.NotBefore(log, later)
  {
  }

  lemma RunGoes(c: Config, w: World, n: World, now: nat, budget: real, decay: real) returns (m: World)
    requires ValidConfig(c) && c.dll && Reaches(c, w, n) && Waits(n, now, budget) && 0.0 <= budget <= 0.01
    requires n.sh.status == EsWait && LongEnough(n.h, now) && n.h.rs == RsTune && 0.0 <= decay <= 1.0
    ensures Reaches(c, w, m) && m.sh == n.sh.(status := EsRun) && m.e == n.e
    ensures m.h.rs == RsRun && m.h.pc == DropSpace(Return) && Placid(m.h, budget + 0.001)
  {
    hide Reaches, Earned.NotBefore, Cycle, Settled, Gentle, Slow, Measurable;
    m := CycleGoes(c, w, n, now, budget, decay);
    m := HostGoes(c, w, m, Compute(now, false), []);
    m := HostGoes(c, w, m, Compute(now, false), []);
  }

  /** What the three changes of the filter compute for 1 - exp(-w). */
  datatype Decays = Decays(boot: real, tune: real, run: real)

  predicate ValidDecays(d: Decays) {
    0.0 <= d.boot <= 1.0 && 0.0 <= d.tune <= 1.0 && 0.0 <= d.run <= 1.0
  }

  /** From READY, with something to measure, three cycles lead by way of BOOT and TUNE to RUN. */
  lemma WaitingLeadsToRun(c: Config, n: World, d: Decays) returns (boot: World, tune: World, run: World)
    requires ValidDecays(d)
    requires ValidConfig(c) && c.dll && Waits(n, 0, 0.0) && n.h.rs == RsReady && n.sh.status == EsWait
    ensures Reaches(c, n, boot) && boot.h.rs == RsBoot && boot.sh.status == EsWait
    ensures Reaches(c, boot, tune) && tune.h.rs == RsTune && tune.sh.status == EsWait
    ensures Reaches(c, tune, run) && run.h.rs == RsRun && run.sh == n.sh.(status := EsRun) && run.e == n.e
    ensures run.h.pc == DropSpace(Return) && Placid(run.h, 0.003)
  {
    hide Reaches, Waits, Placid;
    StartsThere(c, n);
    boot := PhaseGoes(c, n, n, 0, 0.0, d.boot);
    StartsThere(c, boot);
    tune := PhaseGoes(c, boot, boot, CLOCK_SPAN, 0.001, d.tune);
    StartsThere(c, tune);
    run := RunGoes(c, tune, tune, 2 * CLOCK_SPAN, 0.002, d.run);
  }

  // ----- From an initial world to READY -----

  /** The engine's thread boots and waits for data. */
  lemma EngineBoots(c: Config, w: World, n: World) returns (m: World)
    requires ValidConfig(c) && c.dll && Reaches(c, w, n) && n.e.pc == AwaitSteady && n.sh.status == EsSteady
    ensures Reaches(c, w, m) && m.h == n.h && m.sh == n.sh.(status := EsWait)
    ensures m.e.pc == PollStatus && m.e.inFlight == n.e.inFlight && m.e.outFlight == n.e.outFlight
  {
    hide Reaches, H2oTransfer, O2hTransfer, Zeros;
    m := EngineGoes(c, w, n);
    m := EngineGoes(c, w, m);
    m := EngineGoes(c, w, m);
    m := EngineGoes(c, w, m);
  }

  /** The engine publishes, the host notices it, and the engine boots. */
  lemma Meets(c: Config, w: World, n: World) returns (m: World)
    requires ValidConfig(c) && c.dll && Reaches(c, w, n) && n.e.pc == InitLine && n.sh.status == EsStop
    requires n.h.pc == Idle && n.h.rs == RsReady && Earned.NotBefore(n.h.log, 0)
    ensures Reaches(c, w, m) && m.h == n.h && m.e.pc == PollStatus
    ensures m.e.inFlight == n.e.inFlight + 1 && m.e.outFlight == n.e.outFlight + 1
    ensures m.sh == n.sh.(status := EsWait, line := OverbridgeInit(n.sh.line, OB_SAMPLE_RATE, c.frames))
  {
    hide Reaches, Earned.NotBefore, OverbridgeInit;
    m := Publishes(c, w, n);
    m := Samples(c, w, m, 0);
    m := HostGoes(c, w, m, Compute(0, false), []);
    m := EngineBoots(c, w, m);
  }

  /** A transfer is delivered at the beginning of the clock, while the engine waits. */
  lemma TransferDelivered(c: Config, w: World, n: World) returns (m: World)
    requires ValidConfig(c) && c.dll && Reaches(c, w, n) && n.e.pc == PollStatus && n.sh.status == EsWait
             && n.e.inFlight > 0
    requires n.sh.o2hOption
    ensures Reaches(c, w, m) && m.h == n.h && m.e.pc == In(InRecheck, false)
    ensures m.e.inFlight == n.e.inFlight - 1 && m.e.outFlight == n.e.outFlight
    ensures m.sh == n.sh.(line := OverbridgeUpdate(n.sh.line, U32(c.frames), 0))
  {
    hide Reaches, OverbridgeUpdate, H2oTransfer, O2hTransfer, Zeros, U32;
    m := EngineGoes(c, w, n);
    m := DeviceGoes(c, w, m, DeliverIn, 0);
    m := EngineGoes(c, w, m);
    m := EngineGoes(c, w, m);
    m := EngineGoes(c, w, m);
  }

  lemma TransferResubmitted(c: Config, w: World, n: World) returns (m: World)
    requires ValidConfig(c) && c.dll && Reaches(c, w, n) && n.e.pc == In(InRecheck, false) && n.sh.status == EsWait
    ensures Reaches(c, w, m) && m.h == n.h && m.e.pc == PollStatus && m.sh == n.sh
    ensures m.e.inFlight == n.e.inFlight + 1 && m.e.outFlight == n.e.outFlight
  {
    hide Reaches, H2oTransfer, O2hTransfer, Zeros;
    m := EngineGoes(c, w, n);
    m := EngineGoes(c, w, m);
    m := EngineGoes(c, w, m);
  }

  /** A transfer arrives from the device. */
  lemma TransferArrives(c: Config, w: World, n: World) returns (m: World)
    requires ValidConfig(c) && c.dll && Reaches(c, w, n) && n.e.pc == PollStatus && n.sh.status == EsWait
             && n.e.inFlight > 0
    ensures Reaches(c, w, m) && m.h == n.h && m.e.pc == PollStatus
    ensures m.e.inFlight == n.e.inFlight && m.e.outFlight == n.e.outFlight
    ensures m.sh == n.sh.(o2hOption := true, h2oOption := true, line := OverbridgeUpdate(n.sh.line, U32(c.frames), 0))
  {
    hide Reaches, OverbridgeUpdate, U32;
    m := Go(c, w, n, OptionsSet(true, true));
    m := TransferDelivered(c, w, m);
    m := TransferResubmitted(c, w, m);
  }

  /** What a reset does before the engine has started. */
  function Renewed(c: Config, h: HostThread): HostThread
    requires ValidConfig(c)
  {
    var r := WithRatios(h.(dll := HostReset(HostInit(h.dll), h.samplerate, OB_SAMPLE_RATE, h.bufsize, c.frames, 0)));
    r.(pc := Idle, rs := RsReady, log := h.log + [WasReset], reading := false)
  }

  /** The rings as they are at first. */
  predicate Unused(sh: Shared) {
    sh.o2h == Empty(sh.o2h.capacity) && sh.h2o == Empty(sh.h2o.capacity)
  }

  /** The host drops what it has, of which there is nothing. */
  lemma Drops(c: Config, w: World, n: World, k: After) returns (m: World)
    requires ValidConfig(c) && c.dll && Reaches(c, w, n) && n.h.pc == DropSpace(k) && Unused(n.sh)
    ensures Reaches(c, w, m) && m.e == n.e && m.sh == n.sh && m.h == n.h.(pc := AskClear(k), reading := false)
  {
    hide Reaches;
    assert FrameBytes(0, O2hFrame(c)) == 0;
    assert Discard(n.sh.o2h, 0) == n.sh.o2h;
    hide FrameBytes, O2hFrame, Discard;
    m := HostGoes(c, w, n, ReadAudio, []);
    m := HostGoes(c, w, m, ReadAudio, []);
  }

  lemma ResetsLoop(c: Config, w: World, n: World) returns (m: World)
    requires ValidConfig(c) && c.dll && Reaches(c, w, n) && n.h.pc == ResetSample && n.sh.status == EsStop
    ensures Reaches(c, w, m) && m.e == n.e && m.sh == n.sh.(line := n.sh.line.(boot := true))
    ensures m.h == Renewed(c, n.h).(pc := DropSpace(Return), reading := n.h.reading)
  {
    hide Reaches, HostReset, HostInit;
    m := HostGoes(c, w, n, ReadAudio, []);
    m := HostGoes(c, w, m, ReadAudio, []);
    hide WithRatios;
    m := HostGoes(c, w, m, ReadAudio, []);
    m := HostGoes(c, w, m, ReadAudio, []);
  }

  lemma Renews(c: Config, w: World, n: World) returns (m: World)
    requires ValidConfig(c) && c.dll && Reaches(c, w, n) && n.h.pc == ResetSample && n.sh.status == EsStop
             && Unused(n.sh)
    ensures Reaches(c, w, m) && m.e == n.e && m.sh == n.sh.(line := n.sh.line.(boot := true))
    ensures m.h == Renewed(c, n.h)
  {
    m := ResetsLoop(c, w, n);
    m := Drops(c, w, m, Return);
    hide Reaches, WithRatios, HostReset, HostInit;
    m := HostGoes(c, w, m, ReadAudio, []);
  }

  /** What the calls before the start keep. */
  predicate Early(c: Config, n: World, w: World) {
    && n.e == w.e && n.sh == w.sh.(line := n.sh.line) && n.sh.line.boot && Unused(n.sh) && n.sh.status == EsStop
    && n.h.pc == Idle && n.h.rs == RsReady && n.h.account == Account(0.0, 0, 0.0)
    && (forall k :: 0 <= k < |n.h.log| ==> n.h.log[k].WasReset?)
  }

  lemma RenewedIsEarly(c: Config, n: World, m: World, w: World, h: HostThread)
    requires ValidConfig(c) && Early(c, n, w) && m.e == n.e && m.sh == n.sh.(line := n.sh.line.(boot := true))
    requires h.log == n.h.log && h.account == n.h.account && m.h == Renewed(c, h)
    ensures Early(c, m, w) && m.h.bufsize == h.bufsize && m.h.samplerate == h.samplerate
  {
    hide HostReset, HostInit;
    forall k | 0 <= k < |m.h.log|
      ensures m.h.log[k].WasReset?
    {
      if k < |n.h.log| { assert m.h.log[k] == n.h.log[k]; }
    }
  }

  /** JACK sets its rate and its buffer size. */
  lemma Resizes(c: Config, w: World, n: World) returns (m: World)
    requires ValidConfig(c) && c.dll && Reaches(c, w, n) && Early(c, n, w)
    requires n.h.bufsize > 0 && n.h.samplerate == 48000.0
    ensures Reaches(c, w, m) && Early(c, m, w) && m.h.bufsize == 1 && m.h.samplerate == 48000.0
  {
    hide Reaches, Renewed;
    if n.h.bufsize == 1 { return n; }
    m := HostGoes(c, w, n, Resize(1), []);
    m := Drops(c, w, m, ThenReset);
    m := HostGoes(c, w, m, ReadAudio, []);
    var h := m.h;
    m := Renews(c, w, m);
    RenewedIsEarly(c, n, m, w, h);
  }

  lemma Resamples(c: Config, w: World, n: World) returns (m: World)
    requires ValidConfig(c) && c.dll && Reaches(c, w, n) && Early(c, n, w) && n.h.bufsize > 0
    ensures Reaches(c, w, m) && Early(c, m, w) && m.h.bufsize > 0 && m.h.samplerate == 48000.0
  {
    hide Reaches, Renewed;
    if n.h.samplerate == 48000.0 { return n; }
    m := HostGoes(c, w, n, Resample(48000.0), []);
    var h := m.h;
    m := Renews(c, w, m);
    RenewedIsEarly(c, n, m, w, h);
  }

  lemma Resets(c: Config, w: World, n: World) returns (m: World)
    requires ValidConfig(c) && c.dll && Reaches(c, w, n) && Early(c, n, w) && n.h.bufsize == 1
             && n.h.samplerate == 48000.0
    ensures Reaches(c, w, m) && Early(c, m, w) && Placid(m.h, 0.0)
    ensures m.h.dll.boot && m.h.dll.frames == TWO32 - c.frames
    ensures m.h.dll.targetDelay == ToInt(Trunc(2.0 * c.frames as real + 1.5))
  {
    hide Reaches;
    m := HostGoes(c, w, n, Reset, []);
    var h := m.h;
    m := Renews(c, w, m);
    RenewedIsEarly(c, n, m, w, h);
    hide Early, Unused;
    assert h.samplerate / OB_SAMPLE_RATE == 1.0;
    NominalCounter(c.frames);
    hide Counter;
  }

  /** The counter that the code computes at 48 kHz. */
  lemma NominalCounter(frames: nat)
    requires 0 < frames < 0x8000_0000
    ensures Counter(frames, 1.0, 0) == TWO32 - frames
  {
    CounterIsDefined(frames, 1.0, 0, 0);
  }

  // ----- What the host measures after one transfer -----

  /** The line after the transfer that boots it. */
  lemma LineOfOneTransfer(o: Overbridge, frames: nat)
    requires o.boot && 0 < frames <= 224
    ensures var dt := frames as real / 48000.0;
            var n := OverbridgeUpdate(OverbridgeInit(o, OB_SAMPLE_RATE, frames), frames, 0);
            && n.i0 == Instant(dt, frames) && n.i1.frames == 2 * frames
            && n.i0.time + 0.9 * dt <= n.i1.time <= n.i0.time + dt
  {
    var line := OverbridgeInit(o, OB_SAMPLE_RATE, frames);
    var dt := frames as real / 48000.0;
    assert WallClock(0) == 0.0;
    assert 0.0 < dt < 0.005 && line.dt == dt && 0.0 <= line.w1 <= 0.01;
    BoundedProduct(line.w1, -dt, 0.01, dt);
    assert Product(0.01, dt) == 0.01 * dt;
    NonNegativeProduct(line.w1, dt);
    assert Product(line.w1, -dt) == -(line.w1 * dt);
    hide OverbridgeInit, Product;
  }

  /** So the host measures a few transfers' worth of frames. */
  lemma OneTransferIsMeasurable(d: Host, o: Overbridge, frames: nat)
    requires 0 < frames <= 224 && d.boot && d.frames == TWO32 - frames
    requires d.targetDelay == ToInt(Trunc(2.0 * frames as real + 1.5))
    requires var dt := frames as real / 48000.0;
             && o.i0 == Instant(dt, frames) && o.i1.frames == 2 * frames
             && o.i0.time + 0.9 * dt <= o.i1.time <= o.i0.time + dt
    ensures Measurable(d, o, 0)
  {
    var h, dt, span := LoadOverbridge(d, o), frames as real / 48000.0, o.i1.time - o.i0.time;
    assert h.targetDelay == 2 * frames + 1;
    assert Backlog(h) == 2 * frames;
    assert HostOffset(h, 0) == -dt && HostSpan(h) == span;
    assert I32(h.i1.frames - h.i0.frames) == frames;
    assert Interpolated(h, 0, 0.0) == Proportion(frames, -dt, span);
    QuotientNear(frames, dt, span);
    hide Interpolated, Proportion, Backlog, HostOffset, HostSpan, Round, FitsInt32;
    RoundFits(Interpolated(h, 0, 0.0) - h.targetDelay as real);
    RoundFits(RawError(h, 0, 0.0));
  }

  lemma RoundFits(r: real)
    requires -2000.0 <= r <= 2000.0
    ensures FitsInt32(Round(r)) && FitsInt32(-Round(r))
  {
  }

  lemma QuotientNear(frames: nat, dt: real, span: real)
    requires dt > 0.0 && 0.9 * dt <= span
    ensures -2.0 * frames as real <= Proportion(frames, -dt, span) <= 0.0
  {
    var f := frames as real;
    var x := f * dt;
    NonNegativeProduct(f, dt);
    NonNegativeProduct(f, 2.0 * span - dt);
    assert f * (2.0 * span - dt) == 2.0 * f * span - x;
    assert f * (-dt) == -x;
    NegatedQuotient(x, span);
    BelowQuotient(x, span, 2.0 * f);
    BelowQuotient(-x, span, 0.0);
  }

  /** JACK sets its rate and its buffer size, and resets, before the engine starts. */
  lemma HostPrepares(c: Config, w: World) returns (n: World)
    requires ValidConfig(c) && c.dll && Initial(c, w)
    ensures Reaches(c, w, n) && n.e == w.e && n.sh == w.sh.(line := n.sh.line) && n.sh.line.boot && Unused(n.sh)
    ensures n.sh.status == EsStop && n.e.pc == InitLine && n.e.inFlight == 0 && n.e.outFlight == 0
    ensures n.h.pc == Idle && n.h.rs == RsReady && Placid(n.h, 0.0) && Earned.NotBefore(n.h.log, 0)
    ensures n.h.dll.boot && n.h.dll.frames == TWO32 - c.frames
    ensures n.h.dll.targetDelay == ToInt(Trunc(2.0 * c.frames as real + 1.5))
  {
    StartsThere(c, w);
    InitialIsEarly(c, w);
    hide Reaches, Initial, Placid;
    n := Resamples(c, w, w);
    n := Resizes(c, w, n);
    n := Resets(c, w, n);
    ResetsAreNoCycles(n.h.log);
    hide Earned.NotBefore, Unused;
  }

  lemma ResetsAreNoCycles(log: seq<Entry>)
    requires forall k :: 0 <= k < |log| ==> log[k].WasReset?
    ensures Earned.NotBefore(log, 0)
  {
  }

  /** From every initial world, for every size of transfer that the programs accept: JACK prepares, the engine
      starts, and a transfer arrives. */
  lemma ReadyIsReached(c: Config, w: World) returns (n: World)
    requires ValidConfig(c) && c.dll && Initial(c, w) && c.frames <= 224
    ensures Reaches(c, w, n) && Waits(n, 0, 0.0) && n.h.rs == RsReady && n.sh.status == EsWait && n.e.pc == PollStatus
    ensures Unused(n.sh) && n.sh.h2o.capacity == w.sh.h2o.capacity && n.sh.o2h.capacity == w.sh.o2h.capacity
    ensures n.e.inFlight == 1 && n.e.outFlight == 1 && n.sh.o2hOption && n.sh.h2oOption
  {
    hide Reaches, Initial, OverbridgeInit, OverbridgeUpdate, Placid, U32, Earned.NotBefore, Measurable;
    var early := HostPrepares(c, w);
    n := Meets(c, w, early);
    n := TransferArrives(c, w, n);
    assert U32(c.frames) == c.frames by { Small32(c.frames); }
    LineOfOneTransfer(early.sh.line, c.frames);
    OneTransferIsMeasurable(n.h.dll, n.sh.line, c.frames);
  }

  lemma Small32(n: nat)
    requires n < 0x8000_0000
    ensures U32(n) == n
  {
  }

  lemma InitialIsEarly(c: Config, w: World)
    requires Initial(c, w)
    ensures Early(c, w, w) && w.h.bufsize > 0 && w.e.pc == InitLine && w.e.inFlight == 0 && w.e.outFlight == 0
  {
    hide HostReset, HostInit;
  }

  /** From every initial world, by way of BOOT and of TUNE, to RUN. */
  lemma RunIsReached(c: Config, w: World, d: Decays) returns (boot: World, tune: World, run: World)
    requires ValidConfig(c) && c.dll && Initial(c, w) && c.frames <= 224 && ValidDecays(d)
    ensures Reaches(c, w, boot) && boot.h.rs == RsBoot && boot.sh.status == EsWait
    ensures Reaches(c, boot, tune) && tune.h.rs == RsTune && tune.sh.status == EsWait
    ensures Reaches(c, tune, run) && run.h.rs == RsRun && run.sh.status == EsRun
    ensures run.h.pc == DropSpace(Return) && Placid(run.h, 0.003) && run.e.pc == PollStatus
    ensures Unused(run.sh) && run.sh.h2o.capacity == w.sh.h2o.capacity && run.sh.o2h.capacity == w.sh.o2h.capacity
    ensures run.e.inFlight == 1 && run.e.outFlight == 1 && run.sh.o2hOption && run.sh.h2oOption
  {
    hide Reaches, Initial, Waits, Placid;
    var n := ReadyIsReached(c, w);
    boot, tune, run := WaitingLeadsToRun(c, n, d);
    Join(c, w, n, boot);
  }

  /** So from every initial world there is a run whose history has an entry to RUN, and it is earned. */
  lemma EarnedRunIsReached(c: Config, w: World, d: Decays) returns (events: seq<Event>)
    requires ValidConfig(c) && c.dll && Initial(c, w) && c.frames <= 224 && ValidDecays(d)
    ensures ValidEvents(c, events) && Earned.PunctualRun(c, w, events)
    ensures var log := Run(c, w, events).h.log; Earned.AllEarned(log) && Earned.HasRun(log)
  {
    hide Placid, Initial, Earned.AllEarned, Earned.HasRun, Earned.PunctualRun, Run;
    var boot, tune, run := RunIsReached(c, w, d);
    Join(c, w, boot, tune);
    Join(c, w, tune, run);
    events :| Path(c, w, run, events);
    Earned.RunKeepsInv(c, w, events);
  }

  // ----- A part of a frame in the ring -----

  /** The host drops what it has and asks the engine to clear. */
  lemma Clears(c: Config, w: World, n: World) returns (m: World)
    requires ValidConfig(c) && c.dll && Reaches(c, w, n) && n.sh.status == EsRun && n.h.pc == DropSpace(Return)
             && Unused(n.sh)
    ensures Reaches(c, w, m) && m.e == n.e && m.sh == n.sh.(status := EsClear)
    ensures m.h == n.h.(pc := Idle, reading := false)
  {
    hide Reaches, Unused;
    m := Drops(c, w, n, Return);
    m := HostGoes(c, w, m, WriteAudio, []);
  }

  lemma OneFrame(ratio: real)
    requires 0.9 <= ratio <= 1.1
    ensures Requested(0.0, 1, 1.0 / ratio) == 1
  {
    var q := 1.0 / ratio;
    assert q * ratio == 1.0;
    if q >= 2.0 { NonNegativeProduct(q - 2.0, ratio); }
    if q <= 0.0 { NonNegativeProduct(-q, ratio); }
    assert 1 as real * (q - 1.0) == q - 1.0;
    assert Accumulated(0.0, 1, q) == q - 1.0;
  }

  /** And then it writes one frame. */
  lemma Writes(c: Config, w: World, n: World, budget: real) returns (m: World)
    requires ValidConfig(c) && c.dll && Reaches(c, w, n) && n.h.pc == Idle && n.h.rs == RsRun && Placid(n.h, budget)
    requires n.sh.h2o == Empty(n.sh.h2o.capacity) && H2oFrame(c) <= n.sh.h2o.capacity
    ensures Reaches(c, w, m) && m.e == n.e && m.sh.status == n.sh.status
    ensures |m.sh.h2o.data| == H2oFrame(c) && !m.sh.h2o.broken
  {
    var frame := Zeros(H2oFrame(c));
    OneFrame(n.h.dll.ratio);
    assert Requested(n.h.account.acc, n.h.bufsize, n.h.h2oRatio) == 1;
    m := Offers(c, w, n, frame);
    hide Reaches, Requested, H2oFrame, Placid;
    m := HostGoes(c, w, m, WriteAudio, frame);
    m := HostGoes(c, w, m, WriteAudio, frame);
  }

  lemma Offers(c: Config, w: World, n: World, frame: seq<byte>) returns (m: World)
    requires ValidConfig(c) && c.dll && Reaches(c, w, n) && n.h.pc == Idle && n.h.rs == RsRun
    requires Requested(n.h.account.acc, n.h.bufsize, n.h.h2oRatio) == 1 && |frame| == H2oFrame(c)
    ensures Reaches(c, w, m) && m.e == n.e && m.sh == n.sh && m.h.pc == WriterSpace(frame)
  {
    hide Reaches, Requested, Charged, H2oFrame;
    m := HostGoes(c, w, n, WriteAudio, frame);
    m := HostGoes(c, w, m, WriteAudio, frame);
    m := HostGoes(c, w, m, WriteAudio, frame);
  }

  /** The engine sees how much there is to clear. */
  lemma EngineLooks(c: Config, w: World, n: World) returns (m: World)
    requires ValidConfig(c) && Reaches(c, w, n) && n.e.pc == PollStatus && n.sh.status == EsClear
    ensures Reaches(c, w, m) && m.sh == n.sh && m.h == n.h && m.e == n.e.(pc := ClearDiscard(|n.sh.h2o.data|))
  {
    hide Reaches, Device, FrameBytes, Discard, H2oTransfer, O2hTransfer, Zeros;
    m := EngineGoes(c, w, n);
    m := EngineGoes(c, w, m);
    m := EngineGoes(c, w, m);
  }

  /** And it clears the ring by whole frames of the USB packets. */
  lemma EngineClears(c: Config, w: World, n: World) returns (m: World)
    requires ValidConfig(c) && Reaches(c, w, n) && n.e.pc == PollStatus && n.sh.status == EsClear
    requires !n.sh.h2o.broken
    ensures Reaches(c, w, m) && |m.sh.h2o.data| == |n.sh.h2o.data| - FrameBytes(|n.sh.h2o.data|, c.usbFrame)
  {
    hide Reaches, Device, FrameBytes, Discard, H2oTransfer, O2hTransfer, Zeros;
    m := EngineLooks(c, w, n);
    m := EngineGoes(c, w, m);
    LessAfterDiscard(n.sh.h2o, FrameBytes(|n.sh.h2o.data|, c.usbFrame));
  }

  lemma LessAfterDiscard(r: Ring, n: nat)
    requires n <= ReadSpace(r)
    ensures |Discard(r, n).data| == |r.data| - n
  {
  }

  lemma RunLeavesPart(c: Config, w: World, run: World) returns (n: World)
    requires ValidConfig(c) && c.dll && 3 * c.inputs <= c.usbFrame < 4 * c.inputs && Reaches(c, w, run)
    requires run.h.rs == RsRun && run.sh.status == EsRun && run.h.pc == DropSpace(Return) && Placid(run.h, 0.003)
    requires run.e.pc == PollStatus && Unused(run.sh) && H2oFrame(c) <= run.sh.h2o.capacity
    ensures Reaches(c, w, n) && !Whole(|n.sh.h2o.data|, H2oFrame(c))
  {
    hide Reaches, Slow;
    n := Clears(c, w, run);
    n := Writes(c, w, n, 0.003);
    n := EngineClears(c, w, n);
    OneFrameMisaligns(H2oFrame(c), c.usbFrame);
  }

  /** With an input track of 3 bytes a clear leaves a part of a frame, from every initial world whose ring has
      room for one. */
  lemma PartOfFrameIsReached(c: Config, w: World, d: Decays) returns (n: World)
    requires ValidConfig(c) && c.dll && 3 * c.inputs <= c.usbFrame < 4 * c.inputs && c.frames <= 224
    requires Initial(c, w) && H2oFrame(c) <= w.sh.h2o.capacity && ValidDecays(d)
    ensures Reaches(c, w, n) && !Whole(|n.sh.h2o.data|, H2oFrame(c))
  {
    hide Reaches, Initial, Placid, Whole, Unused;
    var boot, tune, run := RunIsReached(c, w, d);
    n := RunLeavesPart(c, tune, run);
    Join(c, w, boot, tune);
    Join(c, w, tune, n);
  }

  /** From an initial world whose ring has room for a frame, the ring to the device holds whole frames in every
      run exactly when no input track has 3 bytes. */
  lemma RingHoldsWholeFrames(c: Config, w: World)
    requires ValidConfig(c) && c.dll && 3 * c.inputs <= c.usbFrame <= 4 * c.inputs && c.frames <= 224
    requires Initial(c, w) && H2oFrame(c) <= w.sh.h2o.capacity
    ensures (forall events :: ValidEvents(c, events) ==> Whole(|Run(c, w, events).sh.h2o.data|, H2oFrame(c)))
            <==> Transport.Aligned(c)
  {
    hide Run, Initial, ValidEvent, Whole;
    if Transport.Aligned(c) {
      forall events | ValidEvents(c, events)
        ensures Whole(|Run(c, w, events).sh.h2o.data|, H2oFrame(c))
      {
        Transport.FramesAreConserved(c, w, events);
      }
    } else {
      var n := PartOfFrameIsReached(c, w, Decays(0.0, 0.0, 0.0));
      var events :| Path(c, w, n, events);
      assert ValidEvents(c, events) && Run(c, w, events) == n;
    }
  }

  // ----- For every size of transfer -----

  function Fresh(c: Config): Host {
    HostReset(Host(0.0, 0.0, 0.0, 0, 0.0, 0.0, 0.0, 0, 0.0, 0.0, 0.0, 0.0, Instant(0.0, 0), Instant(0.0, 0), true),
              48000.0, OB_SAMPLE_RATE, 1, c.frames, 0)
  }

  /** Two points one second apart, at the same frame. */
  function StillLine(frames: uint32): Overbridge {
    Overbridge(Instant(0.0, frames), Instant(1.0, frames), 0.0, 0.0, 0.0, true)
  }

  /** An initial world with rings of any size, whose memory holds two points of the line at the same frame, which
      is the one that the host is waiting for. */
  function Beginning(c: Config, o2hRoom: nat, h2oRoom: nat): World {
    var d := Fresh(c);
    World(Shared(EsStop, true, true, Empty(o2hRoom), Empty(h2oRoom), StillLine(U32(d.frames + d.targetDelay))),
          Engine(InitLine, 0, 0, 0, false, Zeros(O2hTransfer(c)), Zeros(H2oTransfer(c))),
          HostThread(Idle, RsReady, d, 1.0, 0, false, 1, 48000.0, Account(0.0, 0, 0.0), []))
  }

  lemma BeginningIsInitial(c: Config, o2hRoom: nat, h2oRoom: nat)
    requires ValidConfig(c)
    ensures var w := Beginning(c, o2hRoom, h2oRoom);
            Initial(c, w) && Placid(w.h, 0.0)
            && Measurable(w.h.dll, OverbridgeInit(w.sh.line, OB_SAMPLE_RATE, c.frames), 0)
  {
    NominalCounter(c.frames);
    hide Counter;
    var d := Fresh(c);
    var o := OverbridgeInit(StillLine(U32(d.frames + d.targetDelay)), OB_SAMPLE_RATE, c.frames);
    StillIsMeasurable(d, o);
    hide Measurable, OverbridgeInit;
  }

  lemma StillIsMeasurable(d: Host, o: Overbridge)
    requires d.boot && o.i0 == Instant(0.0, U32(d.frames + d.targetDelay)) && o.i1 == Instant(1.0, o.i0.frames)
    requires 0 <= d.frames < TWO32
    ensures Measurable(d, o, 0)
  {
    var h := LoadOverbridge(d, o);
    assert HostSpan(h) == 1.0 && I32(h.i1.frames - h.i0.frames) == 0;
    NoFrames(HostOffset(h, 0), HostSpan(h));
    assert Interpolated(h, 0, 0.0) == 0.0;
    assert Backlog(h) == h.targetDelay by {
      SignedDifference(d.frames + d.targetDelay, d.frames);
      SignedOfWrapped(h.targetDelay);
      assert U32(d.frames) == d.frames;
    }
    hide Interpolated, Backlog;
  }

  lemma NoFrames(part: real, whole: real)
    requires whole != 0.0
    ensures Proportion(0, part, whole) == 0.0
  {
  }

  /** The ring to the device holds whole frames in every run from every initial world exactly when no input track
      has 3 bytes, whatever the size of the transfers. */
  lemma RingsHoldWholeFrames(c: Config)
    requires ValidConfig(c) && c.dll && 3 * c.inputs <= c.usbFrame <= 4 * c.inputs
    ensures (forall w, events :: Initial(c, w) && ValidEvents(c, events)
                                 ==> Whole(|Run(c, w, events).sh.h2o.data|, H2oFrame(c)))
            <==> Transport.Aligned(c)
  {
    hide Run, Initial, ValidEvent, Whole;
    if Transport.Aligned(c) {
      forall w, events | Initial(c, w) && ValidEvents(c, events)
        ensures Whole(|Run(c, w, events).sh.h2o.data|, H2oFrame(c))
      {
        Transport.FramesAreConserved(c, w, events);
      }
    } else {
      var w, n := PartOfFrameFromBeginning(c, Decays(0.0, 0.0, 0.0));
      var events :| Path(c, w, n, events);
      assert Initial(c, w) && ValidEvents(c, events) && Run(c, w, events) == n;
    }
  }

  lemma PartOfFrameFromBeginning(c: Config, d: Decays) returns (w: World, n: World)
    requires ValidDecays(d)
    requires ValidConfig(c) && c.dll && 3 * c.inputs <= c.usbFrame < 4 * c.inputs
    ensures Initial(c, w) && Reaches(c, w, n) && !Whole(|n.sh.h2o.data|, H2oFrame(c))
  {
    w := Beginning(c, 0, H2oFrame(c));
    BeginningIsInitial(c, 0, H2oFrame(c));
    StartsThere(c, w);
    assert Unused(w.sh) && Earned.NotBefore(w.h.log, 0);
    hide Reaches, Initial, Placid, Whole, Unused, Measurable, OverbridgeInit;
    n := Meets(c, w, w);
    assert Waits(n, 0, 0.0);
    assert Unused(n.sh);
    hide Waits, Beginning;
    var boot, tune, run := WaitingLeadsToRun(c, n, d);
    Join(c, w, n, boot);
    Join(c, w, boot, tune);
    Join(c, w, tune, run);
    n := RunLeavesPart(c, w, run);
  }
}
