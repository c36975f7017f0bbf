/** Until the engine reads from the host, what it sends to the device is silence. */
module Silence {
  import opened Ring
  import opened Machine
  import opened Protocol

  /** The points at which the buffer has been cleared, or never been filled, whatever the flag says. */
  predicate Cleared(pc: EnginePc) {
    !Started(pc) || pc.LoopTop? || (pc.Out? && pc.outPc.OutUnflag?)
  }

  predicate Silent(c: Config, e: Engine) {
    !e.reading || Cleared(e.pc) ==> e.outBuf == Zeros(H2oTransfer(c))
  }

  /** Data is only ever fetched while reading. */
  predicate FetchesWhileReading(e: Engine) {
    e.pc.Out? && (e.pc.outPc.OutFetch? || e.pc.outPc.OutMute? || e.pc.outPc.OutUnflag?) ==> e.reading
  }

  lemma MainKeepsSilence(c: Config, sh: Shared, e: Engine, u: Usb)
    requires ValidConfig(c) && Silent(c, e) && FetchesWhileReading(e) && !e.pc.In? && !e.pc.Out?
    ensures var e' := MainStep(c, sh, e, u).1; Silent(c, e') && FetchesWhileReading(e')
  {
    hide Dll.OverbridgeInit, Discard, FrameBytes, H2oTransfer, Zeros, Status.Guarded, Status.TopLeft,
         Status.BootEntered, Status.Level;
  }

  lemma InKeepsSilence(c: Config, sh: Shared, e: Engine, u: Usb)
    requires Silent(c, e) && FetchesWhileReading(e) && e.pc.In?
    ensures var e' := InStep(c, sh, e, e.pc.inPc, e.pc.draining, u).1; Silent(c, e') && FetchesWhileReading(e')
  {
    hide Dll.OverbridgeUpdate, Write, O2hTransfer, H2oTransfer, Zeros, Status.Guarded, Status.Level;
  }

  lemma OutKeepsSilence(c: Config, sh: Shared, e: Engine, u: Usb)
    requires ValidConfig(c) && Silent(c, e) && FetchesWhileReading(e) && e.pc.Out?
    ensures var e' := OutStep(c, sh, e, e.pc.outPc, e.pc.draining, u).1; Silent(c, e') && FetchesWhileReading(e')
  {
    hide Discard, FrameBytes, Read, Front, H2oTransfer, Zeros, Status.Guarded, Status.Level;
  }

  lemma EngineKeepsSilence(c: Config, sh: Shared, e: Engine, u: Usb)
    requires ValidConfig(c) && Silent(c, e) && FetchesWhileReading(e)
    ensures var e' := EngineStep(c, sh, e, u).1; Silent(c, e') && FetchesWhileReading(e')
  {
    hide MainStep, InStep, OutStep, Silent, FetchesWhileReading;
    match e.pc {
      case In(_, _) => InKeepsSilence(c, sh, e, u);
      case Out(_, _) => OutKeepsSilence(c, sh, e, u);
      case _ => MainKeepsSilence(c, sh, e, u);
    }
  }

  lemma {:induction false} RunKeepsSilence(c: Config, w: World, events: seq<Event>)
    requires ValidConfig(c) && Initial(c, w)
    ensures Silent(c, Run(c, w, events).e) && FetchesWhileReading(Run(c, w, events).e)
  {
    if events != [] {
      RunKeepsSilence(c, w, events[..|events| - 1]);
      var before, ev := Run(c, w, events[..|events| - 1]), events[|events| - 1];
      hide EngineStep, HostStep, Silent, FetchesWhileReading;
      if ev.EngineMoves? { EngineKeepsSilence(c, before.sh, before.e, ev.u); }
    }
  }

  /** In every reachable state, an engine that is not reading has nothing but zeros to send: through
      option changes, clears, resets and reboots. */
  lemma SilenceUntilReading(c: Config, w: World, events: seq<Event>)
    requires ValidConfig(c) && Initial(c, w)
    ensures var e := Run(c, w, events).e;
            !e.reading ==> |e.outBuf| == H2oTransfer(c) && forall k :: 0 <= k < |e.outBuf| ==> e.outBuf[k] == 0
  {
    RunKeepsSilence(c, w, events);
    hide Run;
  }

  /** And a driven engine starts to read only when it runs and a whole transfer was waiting. */
  lemma ReadingStartsInRun(c: Config, sh: Shared, e: Engine, u: Usb)
    requires ValidConfig(c) && c.dll
    ensures var (sh', e') := EngineStep(c, sh, e, u);
            && (!e.reading && e'.reading ==> e.pc.Out? && e.pc.outPc.OutEmpty?)
            && (e'.pc.Out? && e'.pc.outPc.OutEmpty? ==>
                  sh.status == Status.EsRun && e.pc.Out? && e.pc.outPc.OutTestRun?)
            && (e'.pc.Out? && e'.pc.outPc.OutTestRun? ==> e'.pc.outPc.space >= H2oTransfer(c))
  {
    hide Dll.OverbridgeInit, Dll.OverbridgeUpdate, Discard, FrameBytes, Read, Front, Write, O2hTransfer, H2oTransfer,
         Zeros, Status.Guarded, Status.TopLeft, Status.BootEntered, Status.Level;
  }
}
