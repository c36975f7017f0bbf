/** The gains with which the host's loop runs: in every run, those of the bandwidth of its phase. */
module Phases {
  import opened Reals
  import opened Status
  import opened Dll
  import opened Machine
  import Connected
  import HostLoop
  import Rates
  import Requests
  import Ring

  /** What the status stands for: fast to boot, slower to tune, and slow to run. */
  function Bandwidth(rs: ResamplerStatus): real {
    match rs
    case RsBoot => 1.0
    case RsTune => 0.5
    case RsRetune => 0.5
    case RsRun => 0.05
    case _ => 0.0
  }

  /** The status to come, while the cycle that decided for it is still at work. */
  function Coming(h: HostThread): ResamplerStatus {
    match h.pc
    case SetBoot(_) => RsBoot
    case SetTune(_) => RsTune
    case RunEngine => RsRun
    case RunOwn => RsRun
    case SetRetune(_) => RsRetune
    case _ => h.rs
  }

  /** On the way to a reset, after which the gains are set anew. */
  predicate Resetting(pc: HostPc) {
    pc.ResetSample? || pc.ResetInit? || pc.ResetEngine? || pc.ResetOwn?
    || ((pc.DropSpace? || pc.Drop? || pc.AskClear?) && pc.k.ThenReset?)
  }

  predicate InClamp(ratio: real, samplerate: real) {
    Rates.Nominal(samplerate) / 2.0 <= ratio <= 2.0 * Rates.Nominal(samplerate)
  }

  /** The first two stages follow twenty times faster than the loop. */
  function Exponent(bw: real, bufsize: nat, samplerate: real): real
    requires samplerate > 0.0
  {
    2.0 * PI * 20.0 * bw * bufsize as real / samplerate
  }

  /** 1 - exp(-x) for a positive x is not known but for this. */
  predicate Exponential(decay: real, x: real) {
    decay < 1.0 && decay <= x && x <= decay * (1.0 + x)
  }

  /** The gains are those of this bandwidth, for JACK's cycle and rate, and for a ratio within the clamp. */
  ghost predicate Fits(d: Host, bw: real, bufsize: nat, samplerate: real) {
    && samplerate > 0.0
    && Exponential(d.w0, Exponent(bw, bufsize, samplerate))
    && exists ratio: real :: FitsAt(d, bw, bufsize, samplerate, ratio)
  }

  predicate FitsAt(d: Host, bw: real, bufsize: nat, samplerate: real, ratio: real)
    requires samplerate > 0.0
  {
    InClamp(ratio, samplerate) && HostLoop.Tracks(d, bufsize, HostLoop.Omega(bw, ratio, bufsize, samplerate))
  }

  ghost predicate Inv(h: HostThread) {
    && Rates.Inv(h) && h.bufsize > 0
    && (!Resetting(h.pc) && Coming(h) in {RsBoot, RsTune, RsRetune, RsRun}
        ==> Fits(h.dll, Bandwidth(Coming(h)), h.bufsize, h.samplerate))
  }

  lemma SameGains(d: Host, g: Host, bw: real, bufsize: nat, samplerate: real)
    requires Fits(d, bw, bufsize, samplerate) && g.w0 == d.w0 && g.w1 == d.w1 && g.w2 == d.w2
    ensures Fits(g, bw, bufsize, samplerate)
  {
    hide HostLoop.Omega, InClamp, Exponential, Exponent;
    var ratio: real :| FitsAt(d, bw, bufsize, samplerate, ratio);
    assert FitsAt(g, bw, bufsize, samplerate, ratio);
  }

  lemma FilterFits(h: HostThread, bw: real, decay: real)
    requires bw > 0.0 && h.bufsize > 0 && h.samplerate > 0.0 && Rates.Clamps(h.dll, h.samplerate)
    requires Exponential(decay, Exponent(bw, h.bufsize, h.samplerate))
    ensures Fits(WithFilter(h, bw, decay).dll, bw, h.bufsize, h.samplerate)
  {
    PositiveQuotient(h.samplerate, OB_SAMPLE_RATE);
    HostLoop.FilterTracks(h.dll, bw, h.bufsize, h.samplerate, decay);
    assert WithFilter(h, bw, decay).dll.w0 == decay;
    hide HostSetLoopFilter, HostLoop.Tracks, HostLoop.Omega, Exponential, Exponent;
    assert FitsAt(WithFilter(h, bw, decay).dll, bw, h.bufsize, h.samplerate, h.dll.ratio);
  }

  lemma MeasuringKeepsGains(h: HostThread, line: Overbridge, now: nat, undefined: real)
    ensures var m := HostUpdateError(LoadOverbridge(h.dll, line), now, undefined);
            && m.w0 == h.dll.w0 && m.w1 == h.dll.w1 && m.w2 == h.dll.w2
            && HostUpdate(m).w0 == m.w0 && HostUpdate(m).w1 == m.w1 && HostUpdate(m).w2 == m.w2
  {
    hide RawError, Toward, Product;
  }

  /** A change of phase to come, with the bandwidth that the loop's run says. */
  predicate Targets(h: HostThread, d: HostThread) {
    && d.rs == h.rs && d.bufsize == h.bufsize && d.samplerate == h.samplerate
    && (d.pc.Idle? || d.pc.SetBoot? || d.pc.SetTune? || d.pc.RunEngine? || d.pc.SetRetune?)
    && (!d.pc.Idle? ==> Connected.Bandwidth(d.pc) == Bandwidth(Coming(d)) > 0.0)
  }

  lemma DecideTargets(h: HostThread, now: nat, rs: ResamplerStatus, xrun: bool, clamped: bool, decay: real)
    ensures Targets(h, Decide(h, now, rs, xrun, clamped, decay))
  {
    hide HostSetLoopFilter, Tuned, Elapsed;
  }

  /** Where a cycle changes the phase, it sets the gains of the phase to come. */
  lemma CycleTargets(h: HostThread, line: Overbridge, now: nat, xrun: bool, es: EngineStatus, rs: ResamplerStatus,
                     x: Input)
    ensures Targets(h, Cycle(h, line, now, xrun, es, rs, x))
  {
    hide HostUpdateError, HostUpdate, HostClamps, HostSetLoopFilter;
    if !(rs == RsReady && es == EsWait) {
      var m := Measured(h, line, now, x.undefined);
      DecideTargets(WithRatios(m.(dll := HostUpdate(m.dll))), now, rs, xrun, HostClamps(m.dll), x.decay);
      hide Decide;
    }
  }

  /** A cycle that sets the filter gets the exponential that belongs to it. */
  predicate Honest(h: HostThread, line: Overbridge, x: Input) {
    h.pc.Load? && h.samplerate > 0.0 ==>
      var pc := Cycle(h, line, h.pc.now, h.pc.xrun, h.pc.es, h.pc.rs, x).pc;
      pc.Idle? || Exponential(x.decay, Exponent(Connected.Bandwidth(pc), h.bufsize, h.samplerate))
  }

  predicate HonestRun(c: Config, w: World, events: seq<Event>)
    requires ValidConfig(c)
  {
    events == [] ||
    (var before, ev := events[..|events| - 1], events[|events| - 1];
     && HonestRun(c, w, before)
     && (ev.HostMoves? ==> Honest(Run(c, w, before).h, Run(c, w, before).sh.line, ev.x)))
  }

  lemma CycleKeepsInv(h: HostThread, line: Overbridge, now: nat, xrun: bool, es: EngineStatus, rs: ResamplerStatus,
                      x: Input)
    requires Inv(h) && h.pc == Load(now, xrun, es, rs) && Honest(h, line, x)
    ensures Inv(Cycle(h, line, now, xrun, es, rs, x))
  {
    Rates.CycleKeepsInv(h, line, now, xrun, es, rs, x);
    Rates.CycleClamps(h, line, now, x.undefined, h.samplerate);
    Connected.CycleDll(h, line, now, xrun, es, rs, x);
    CycleTargets(h, line, now, xrun, es, rs, x);
    MeasuringKeepsGains(h, line, now, x.undefined);
    hide HostUpdate, HostUpdateError, Rates.Inv, Rates.Clamps, Fits, Exponential, Exponent;
    var d := Cycle(h, line, now, xrun, es, rs, x);
    hide Cycle;
    if d.pc.Idle? {
      if h.rs in {RsBoot, RsTune, RsRetune, RsRun} {
        SameGains(h.dll, d.dll, Bandwidth(h.rs), h.bufsize, h.samplerate);
      }
    } else {
      var m := HostUpdateError(LoadOverbridge(h.dll, line), now, x.undefined);
      var f := h.(dll := if rs == RsReady && es == EsWait then m else HostUpdate(m));
      FilterFits(f, Connected.Bandwidth(d.pc), x.decay);
    }
  }

  lemma ComputeKeepsInv(sh: Shared, h: HostThread, x: Input)
    requires Inv(h) && Computing(h.pc) && !h.pc.Load?
    ensures Inv(ComputeStep(sh, h, x).1)
  {
    hide Rates.Clamps, Requests.Balanced, Fits, Cycle;
  }

  lemma ClearKeepsInv(c: Config, sh: Shared, h: HostThread, x: Input)
    requires ValidConfig(c) && Inv(h) && Clearing(h.pc) && Rates.Inv(ClearStep(c, sh, h, x).1)
    ensures Inv(ClearStep(c, sh, h, x).1)
  {
    hide Rates.Inv, Fits, HostReset, Ring.Discard, Ring.FrameBytes, Guarded, ClearRequested, Level;
  }

  lemma AudioKeepsGains(c: Config, sh: Shared, h: HostThread, x: Input)
    requires ValidConfig(c) && !Computing(h.pc) && !Clearing(h.pc) && !h.pc.Idle?
    ensures var n := AudioStep(c, sh, h, x).1;
            && n.rs == h.rs && n.bufsize == h.bufsize && n.samplerate == h.samplerate
            && n.dll.w0 == h.dll.w0 && n.dll.w1 == h.dll.w1 && n.dll.w2 == h.dll.w2
            && !Computing(n.pc) && !Clearing(n.pc)
  {
    hide Ring.Discard, Ring.FrameBytes, Ring.Read, Ring.Write, Ring.Min, Requests.Requested, Requests.Charged;
  }

  lemma AudioKeepsInv(c: Config, sh: Shared, h: HostThread, x: Input)
    requires ValidConfig(c) && Inv(h) && !Computing(h.pc) && !Clearing(h.pc) && !h.pc.Idle?
    requires Rates.Inv(AudioStep(c, sh, h, x).1)
    ensures Inv(AudioStep(c, sh, h, x).1)
  {
    AudioKeepsGains(c, sh, h, x);
    hide AudioStep, Rates.Inv, Fits;
    if h.rs in {RsBoot, RsTune, RsRetune, RsRun} {
      SameGains(h.dll, AudioStep(c, sh, h, x).1.dll, Bandwidth(h.rs), h.bufsize, h.samplerate);
    }
  }

  lemma BeginKeepsInv(h: HostThread, x: Input)
    requires Inv(h) && h.pc.Idle? && ValidInput(x) && Rates.Inv(Begin(h, x.call))
    ensures Inv(Begin(h, x.call))
  {
    hide Rates.Inv, Fits;
  }

  lemma HostKeepsInv(c: Config, sh: Shared, h: HostThread, x: Input)
    requires ValidConfig(c) && ValidInput(x) && Inv(h) && Honest(h, sh.line, x)
    ensures Inv(HostStep(c, sh, h, x).1)
  {
    Rates.HostKeepsInv(c, sh, h, x);
    if h.pc.Load? { CycleKeepsInv(h, sh.line, h.pc.now, h.pc.xrun, h.pc.es, h.pc.rs, x); }
    else if h.pc.Idle? { BeginKeepsInv(h, x); }
    else if Computing(h.pc) { ComputeKeepsInv(sh, h, x); }
    else if Clearing(h.pc) { ClearKeepsInv(c, sh, h, x); }
    else { AudioKeepsInv(c, sh, h, x); }
    hide Begin, Cycle, ClearStep, AudioStep, Inv, Rates.Inv, Honest;
  }

  lemma {:induction false} RunKeepsInv(c: Config, w: World, events: seq<Event>)
    requires ValidConfig(c) && Initial(c, w) && ValidEvents(c, events) && HonestRun(c, w, events)
    ensures Inv(Run(c, w, events).h)
  {
    if events == [] {
      Rates.InitialInv(c, w);
    } else {
      RunKeepsInv(c, w, events[..|events| - 1]);
      var before, ev := Run(c, w, events[..|events| - 1]), events[|events| - 1];
      hide EngineStep, HostStep, Inv, Honest;
      if ev.HostMoves? { HostKeepsInv(c, before.sh, before.h, ev.x); }
    }
  }

  /** In every run, between two calls: while the resampler boots, tunes or runs, the gains are those of a loop
      damped by 0.8 whose bandwidth is 1, 0.5 or 0.05 Hz, for JACK's present cycle and rate and a ratio within
      the clamp, and its first stages follow twenty times faster. */
  lemma GainsFitPhase(c: Config, w: World, events: seq<Event>)
    requires ValidConfig(c) && Initial(c, w) && ValidEvents(c, events) && HonestRun(c, w, events)
    ensures var h := Run(c, w, events).h;
            h.pc.Idle? && h.rs in {RsBoot, RsTune, RsRetune, RsRun} ==>
              Fits(h.dll, Bandwidth(h.rs), h.bufsize, h.samplerate) && HostLoop.Working(h.dll)
  {
    hide Run, Rates.Inv, Fits, HonestRun, Initial, ValidEvents;
    RunKeepsInv(c, w, events);
    var h := Run(c, w, events).h;
    if h.pc.Idle? && h.rs in {RsBoot, RsTune, RsRetune, RsRun} {
      GainsWork(h.dll, Bandwidth(h.rs), h.bufsize, h.samplerate);
    }
  }

  /** With such gains the filter answers every error in the right direction. */
  lemma GainsWork(d: Host, bw: real, bufsize: nat, samplerate: real)
    requires Fits(d, bw, bufsize, samplerate) && bw > 0.0 && bufsize > 0
    ensures HostLoop.Working(d)
  {
    var x := Exponent(bw, bufsize, samplerate);
    PositiveProduct(bw, bufsize as real, bw * bufsize as real);
    assert 2.0 * PI * 20.0 * bw * bufsize as real == 40.0 * PI * (bw * bufsize as real);
    PositiveQuotient(2.0 * PI * 20.0 * bw * bufsize as real, samplerate);
    hide Exponent;
    if d.w0 <= 0.0 { NonNegativeProduct(-d.w0, 1.0 + x); }
    var ratio: real :| FitsAt(d, bw, bufsize, samplerate, ratio);
  }
}
