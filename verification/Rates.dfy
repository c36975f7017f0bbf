/** The ratio that the host uses in any run, and the frames it asks for because of it. */
module Rates {
  import opened Dll
  import opened Reals
  import opened Requests
  import opened Machine

  function Nominal(samplerate: real): real {
    samplerate / OB_SAMPLE_RATE
  }

  /** The ratio lies within the clamp, which is a factor of two around the nominal ratio. */
  predicate Clamps(d: Host, samplerate: real) {
    var r := Nominal(samplerate);
    && d.maxRatio == r * MAX_RATIO_ERROR && d.minRatio == r / MAX_RATIO_ERROR
    && d.minRatio <= d.ratio <= d.maxRatio
  }

  /** A new sample rate reaches the clamp with the reset that follows it. */
  predicate Adjusting(pc: HostPc) {
    pc.ResetSample? || pc.ResetInit?
  }

  predicate Inv(h: HostThread) {
    && h.samplerate > 0.0
    && h.dll.ratio > 0.0 && h.h2oRatio == 1.0 / h.dll.ratio
    && (!Adjusting(h.pc) ==> Clamps(h.dll, h.samplerate))
    && Balanced(h.account)
  }

  lemma ResetClamps(d: Host, samplerate: real, bufsize: nat, frames: nat, counter: Words.uint32)
    requires samplerate > 0.0
    ensures var n := HostReset(HostInit(d), samplerate, OB_SAMPLE_RATE, bufsize, frames, counter);
            Clamps(n, samplerate) && n.ratio > 0.0
  {
    PositiveQuotient(samplerate, OB_SAMPLE_RATE);
  }

  /** What the measurement and the filter do to the fields in question. */
  lemma CycleClamps(h: HostThread, line: Overbridge, now: nat, undefined: real, samplerate: real)
    requires Clamps(h.dll, samplerate) && samplerate > 0.0
    ensures var m := Measured(h, line, now, undefined);
            && Clamps(m.dll, samplerate) && m.dll.ratio == h.dll.ratio
            && Clamps(HostUpdate(m.dll), samplerate) && HostUpdate(m.dll).ratio > 0.0
  {
    var m := Measured(h, line, now, undefined);
    assert m.dll.maxRatio == h.dll.maxRatio && m.dll.minRatio == h.dll.minRatio && m.dll.ratio == h.dll.ratio by {
      hide RawError;
    }
    PositiveQuotient(samplerate, OB_SAMPLE_RATE);
    hide Measured;
    var n := HostUpdate(m.dll);
    assert n.maxRatio == m.dll.maxRatio && n.minRatio == m.dll.minRatio && n.minRatio <= n.ratio <= n.maxRatio by {
      RatioStaysInRange(m.dll);
    }
  }

  lemma DecideKeepsRates(h: HostThread, now: nat, rs: Status.ResamplerStatus, xrun: bool, clamped: bool, decay: real)
    ensures var d := Decide(h, now, rs, xrun, clamped, decay);
            && d.samplerate == h.samplerate && d.h2oRatio == h.h2oRatio && d.account == h.account
            && d.dll.ratio == h.dll.ratio && d.dll.maxRatio == h.dll.maxRatio && d.dll.minRatio == h.dll.minRatio
            && !Adjusting(d.pc)
  {
    hide Tuned, Elapsed;
  }

  lemma CycleKeepsInv(h: HostThread, line: Overbridge, now: nat, xrun: bool, es: Status.EngineStatus,
                      rs: Status.ResamplerStatus, x: Input)
    requires Inv(h) && !Adjusting(h.pc)
    ensures Inv(Cycle(h, line, now, xrun, es, rs, x))
  {
    CycleClamps(h, line, now, x.undefined, h.samplerate);
    var m := Measured(h, line, now, x.undefined);
    assert m == h.(dll := m.dll);
    hide Measured, HostUpdate, HostClamps;
    var r := WithRatios(m.(dll := HostUpdate(m.dll)));
    DecideKeepsRates(r, now, rs, xrun, HostClamps(m.dll), x.decay);
    hide Decide;
  }

  lemma HostKeepsInv(c: Config, sh: Shared, h: HostThread, x: Input)
    requires ValidConfig(c) && ValidInput(x) && Inv(h)
    ensures Inv(HostStep(c, sh, h, x).1)
  {
    match h.pc {
      case Load(now, xrun, es, rs) =>
        CycleKeepsInv(h, sh.line, now, xrun, es, rs, x);
        hide Cycle;
      case ResetInit(es) =>
        ResetClamps(h.dll, h.samplerate, h.bufsize, c.frames, x.counter);
        hide HostReset;
      case WriterRequest =>
        ChargeKeepsBalance(h.account, Period(h.bufsize, h.h2oRatio));
        hide Charged, Requested;
      case _ =>
        hide Cycle, HostReset, Charged, Requested, Ring.Discard, Ring.FrameBytes, Ring.Read, Ring.Write, Ring.Min,
             Balanced;
    }
  }

  lemma InitialInv(c: Config, w: World)
    requires ValidConfig(c) && Initial(c, w)
    ensures Inv(w.h)
  {
    ResetClamps(w.h.dll, w.h.samplerate, w.h.bufsize, c.frames, w.h.dll.frames);
    hide HostReset;
  }

  lemma {:induction false} RunKeepsInv(c: Config, w: World, events: seq<Event>)
    requires ValidConfig(c) && Initial(c, w) && ValidEvents(c, events)
    ensures Inv(Run(c, w, events).h)
  {
    if events == [] {
      InitialInv(c, w);
    } else {
      RunKeepsInv(c, w, events[..|events| - 1]);
      var before, ev := Run(c, w, events[..|events| - 1]), events[|events| - 1];
      hide EngineStep, HostStep, Inv;
      if ev.HostMoves? { HostKeepsInv(c, before.sh, before.h, ev.x); }
    }
  }

  lemma ReciprocalInClamp(ratio: real, samplerate: real)
    requires samplerate > 0.0 && ratio > 0.0 && ratio >= Nominal(samplerate) / 2.0
    ensures InClampRange(1.0 / ratio, samplerate)
  {
    var top, q := 2.0 * 48000.0 / samplerate, 1.0 / ratio;
    assert top * samplerate == 96000.0 && q * ratio == 1.0;
    PositiveQuotient(1.0, ratio);
    NonNegativeProduct(q, ratio - samplerate / 96000.0);
    assert q * (samplerate / 96000.0) <= 1.0;
    assert q * samplerate <= top * samplerate;
    if q > top { PositiveProduct(q - top, samplerate, q * samplerate - top * samplerate); }
  }

  /** In every run the ratio stays within a factor of two of the nominal one... */
  lemma RatioStaysClamped(c: Config, w: World, events: seq<Event>)
    requires ValidConfig(c) && Initial(c, w) && ValidEvents(c, events)
    ensures var h := Run(c, w, events).h;
            !Adjusting(h.pc) ==> Nominal(h.samplerate) / 2.0 <= h.dll.ratio <= 2.0 * Nominal(h.samplerate)
  {
    RunKeepsInv(c, w, events);
    hide Run;
  }

  /** ...all the frames asked for so far differ from the frames due by less than one... */
  lemma RequestsStayBalanced(c: Config, w: World, events: seq<Event>)
    requires ValidConfig(c) && Initial(c, w) && ValidEvents(c, events)
    ensures var a := Run(c, w, events).h.account; -1.0 < a.asked as real - a.due < 1.0
  {
    RunKeepsInv(c, w, events);
    hide Run;
  }

  /** ...and no request is negative, nor larger than the output buffer at any JACK rate from 12 kHz on. */
  lemma RequestsFit(c: Config, w: World, events: seq<Event>)
    requires ValidConfig(c) && Initial(c, w) && ValidEvents(c, events)
    ensures var h := Run(c, w, events).h;
            h.pc.WriterRequest? ==>
              && 0 <= Requested(h.account.acc, h.bufsize, h.h2oRatio)
              && (h.samplerate >= 12000.0 ==>
                    Requested(h.account.acc, h.bufsize, h.h2oRatio) <= BUFFER_SCALE * h.bufsize)
  {
    RunKeepsInv(c, w, events);
    var h := Run(c, w, events).h;
    hide Run;
    if h.pc.WriterRequest? {
      ReciprocalInClamp(h.dll.ratio, h.samplerate);
      RequestIsNotNegative(h.account.acc, h.bufsize, h.h2oRatio);
      hide Requested;
      if h.samplerate >= 12000.0 {
        RequestsFitBuffer(h.samplerate);
      }
    }
  }
}
