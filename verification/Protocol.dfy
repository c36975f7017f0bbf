/** How the statuses of the engine and of the resampler stay in step, under every interleaving
    and any number of resets. */
module Protocol {
  import opened Status
  import opened Machine

  predicate BeforeReady(pc: EnginePc) {
    pc.InitLine? || pc.SubmitFirstIn? || pc.SubmitFirstOut? || pc.PublishReady?
  }

  /** The thread has entered its loop. */
  predicate Started(pc: EnginePc) {
    !BeforeReady(pc) && !pc.AwaitSteady? && !pc.EnterBoot?
  }

  /** The thread has left its loop, or is about to. */
  predicate Leaving(pc: EnginePc) {
    match pc
    case Drain => true
    case Done => true
    case In(_, draining) => draining
    case Out(_, draining) => draining
    case _ => false
  }

  /** The statuses that are possible where the engine thread stands. */
  predicate EngineStands(st: EngineStatus, pc: EnginePc) {
    if BeforeReady(pc) then st == EsStop
    else if Leaving(pc) then Stopped(st)
    else if pc.AwaitSteady? then Stopped(st) || st == EsReady || st == EsSteady
    else if pc.EnterBoot? then Stopped(st) || st == EsSteady
    else Stopped(st) || Level(st) >= Level(EsBoot)
  }

  /** The statuses of the two sides fit together. */
  predicate Coupled(st: EngineStatus, rs: ResamplerStatus) {
    match rs
    case RsReady => st != EsClear && st != EsRun
    case RsBoot => st == EsWait || Stopped(st)
    case RsTune => st == EsWait || Stopped(st)
    case RsRun => st == EsRun || st == EsClear || Stopped(st)
    case RsRetune => st == EsRun || st == EsClear || Stopped(st)
    case _ => false
  }

  /** What a status sampled earlier still says about the present one. */
  predicate SampleHolds(es: EngineStatus, st: EngineStatus, rs: ResamplerStatus, pc: EnginePc) {
    && (rs == RsReady ==> es != EsClear && es != EsRun)
    && (Level(es) > Level(EsBoot) ==> Started(pc))
    && (rs == RsReady && es == EsWait ==> st == EsWait || Stopped(st))
    && (rs == RsReady && es == EsReady ==> pc.AwaitSteady? && (st == EsReady || Stopped(st)))
  }

  predicate ReadyOrStopped(st: EngineStatus) {
    st == EsReady || Stopped(st)
  }

  /** What holds at each point of the host thread; at the points not listed the statuses are coupled. */
  predicate HostStands(st: EngineStatus, rs: ResamplerStatus, hpc: HostPc, epc: EnginePc) {
    match hpc
    case SampleOwn(_, _, es) => Coupled(st, rs) && SampleHolds(es, st, rs, epc)
    case NotifySteady => rs == RsReady && epc.AwaitSteady? && ReadyOrStopped(st)
    case Load(_, _, es, sampled) =>
      && Coupled(st, rs) && sampled == rs && SampleHolds(es, st, rs, epc)
      && (rs == RsReady ==> Level(es) > Level(EsBoot))
    case SetBoot(_) => rs == RsReady && Started(epc) && (st == EsWait || Stopped(st))
    case SetTune(_) => rs == RsBoot && Coupled(st, rs)
    case RunEngine => (rs == RsTune || rs == RsRetune) && Coupled(st, rs)
    case RunOwn => (rs == RsTune || rs == RsRetune) && (st == EsRun || st == EsClear || Stopped(st))
    case SetRetune(_) => rs == RsRun && Coupled(st, rs)
    case ResetInit(es) => Coupled(st, rs) && ResetSampleHolds(es, st, epc)
    case ResetEngine(es) => Coupled(st, rs) && ResetSampleHolds(es, st, epc)
    case ResetOwn => st != EsClear && st != EsRun
    case _ => Coupled(st, rs)
  }

  /** A reset that samples an engine still booting finds it booted by itself at most; one that samples
      a booted engine may force it back because it is in its loop. */
  predicate ResetSampleHolds(es: EngineStatus, st: EngineStatus, epc: EnginePc) {
    if Level(es) > Level(EsBoot) then Started(epc) else st != EsClear && st != EsRun
  }

  /** The invariant, on the two statuses and the two program counters. */
  predicate HostInv(st: EngineStatus, rs: ResamplerStatus, hpc: HostPc, epc: EnginePc) {
    && EngineStands(st, epc)
    && HostStands(st, rs, hpc, epc)
    && (rs != RsReady ==> Started(epc))
  }

  predicate Inv(w: World) {
    HostInv(w.sh.status, w.h.rs, w.h.pc, w.e.pc)
  }

  // ----- The engine thread -----

  /** The ways in which one step of the engine thread can move its status and its place. */
  predicate EngineMove(st: EngineStatus, st': EngineStatus, pc: EnginePc, pc': EnginePc) {
    || (st' == st && (Started(pc) ==> Started(pc')) && (pc.AwaitSteady? ==> pc'.AwaitSteady? || st == EsSteady))
    || (st == EsStop && BeforeReady(pc) && st' == EsReady && pc'.AwaitSteady?)
    || (st == EsSteady && pc.EnterBoot? && st' == EsBoot && Started(pc'))
    || (Started(pc) && Started(pc')
        && (Stopped(st') || (st == EsClear && st' == EsRun) || (st == EsBoot && st' == EsWait)))
  }

  lemma MainMoves(c: Config, sh: Shared, e: Engine, u: Usb)
    requires ValidConfig(c) && c.dll && EngineStands(sh.status, e.pc) && !e.pc.In? && !e.pc.Out?
    ensures var (sh', e') := MainStep(c, sh, e, u);
            EngineStands(sh'.status, e'.pc) && EngineMove(sh.status, sh'.status, e.pc, e'.pc)
  {
    hide Dll.OverbridgeInit, Ring.Discard, Ring.FrameBytes, O2hTransfer, H2oTransfer, Zeros;
  }

  lemma InMoves(c: Config, sh: Shared, e: Engine, u: Usb)
    requires EngineStands(sh.status, e.pc) && e.pc.In?
    ensures var (sh', e') := InStep(c, sh, e, e.pc.inPc, e.pc.draining, u);
            EngineStands(sh'.status, e'.pc) && EngineMove(sh.status, sh'.status, e.pc, e'.pc)
  {
    hide Dll.OverbridgeUpdate, Ring.Write, O2hTransfer;
  }

  lemma OutMoves(c: Config, sh: Shared, e: Engine, u: Usb)
    requires ValidConfig(c) && EngineStands(sh.status, e.pc) && e.pc.Out?
    ensures var (sh', e') := OutStep(c, sh, e, e.pc.outPc, e.pc.draining, u);
            EngineStands(sh'.status, e'.pc) && EngineMove(sh.status, sh'.status, e.pc, e'.pc)
  {
    hide Ring.Discard, Ring.FrameBytes, Ring.Read, Ring.Front, H2oTransfer, Zeros;
  }

  lemma EngineMoves(c: Config, sh: Shared, e: Engine, u: Usb)
    requires ValidConfig(c) && c.dll && EngineStands(sh.status, e.pc)
    ensures var (sh', e') := EngineStep(c, sh, e, u);
            EngineStands(sh'.status, e'.pc) && EngineMove(sh.status, sh'.status, e.pc, e'.pc)
  {
    hide MainStep, InStep, OutStep, EngineStands, EngineMove;
    match e.pc {
      case In(_, _) => InMoves(c, sh, e, u);
      case Out(_, _) => OutMoves(c, sh, e, u);
      case _ => MainMoves(c, sh, e, u);
    }
  }

  lemma QuietMoveKeepsHost(st: EngineStatus, rs: ResamplerStatus, hpc: HostPc, pc: EnginePc, pc': EnginePc)
    requires HostStands(st, rs, hpc, pc) && EngineMove(st, st, pc, pc') && st != EsSteady
    ensures HostStands(st, rs, hpc, pc')
  {
  }

  lemma StopMoveKeepsHost(st: EngineStatus, st': EngineStatus, rs: ResamplerStatus, hpc: HostPc, pc: EnginePc,
                          pc': EnginePc)
    requires HostStands(st, rs, hpc, pc) && Stopped(st') && Started(pc) && Started(pc')
    ensures HostStands(st', rs, hpc, pc')
  {
  }

  lemma RunMoveKeepsHost(rs: ResamplerStatus, hpc: HostPc, pc: EnginePc, pc': EnginePc)
    requires HostStands(EsClear, rs, hpc, pc) && Started(pc) && Started(pc')
    ensures HostStands(EsRun, rs, hpc, pc')
  {
  }

  lemma WaitMoveKeepsHost(rs: ResamplerStatus, hpc: HostPc, pc: EnginePc, pc': EnginePc)
    requires HostStands(EsBoot, rs, hpc, pc) && Started(pc) && Started(pc')
    ensures HostStands(EsWait, rs, hpc, pc')
  {
  }

  lemma FirstMovesKeepHost(st: EngineStatus, st': EngineStatus, rs: ResamplerStatus, hpc: HostPc, pc: EnginePc,
                           pc': EnginePc)
    requires HostStands(st, rs, hpc, pc) && rs == RsReady && !Started(pc)
    requires (st == EsStop && st' == EsReady && BeforeReady(pc) && pc'.AwaitSteady?)
             || (st == EsSteady && st' == EsBoot && pc.EnterBoot? && Started(pc'))
    ensures HostStands(st', rs, hpc, pc')
  {
  }

  lemma LoudMoveKeepsHost(st: EngineStatus, st': EngineStatus, rs: ResamplerStatus, hpc: HostPc, pc: EnginePc,
                          pc': EnginePc)
    requires HostInv(st, rs, hpc, pc) && EngineMove(st, st', pc, pc') && st != st'
    ensures HostStands(st', rs, hpc, pc')
  {
    hide HostStands, EngineStands;
    if !Started(pc) { FirstMovesKeepHost(st, st', rs, hpc, pc, pc'); }
    else if Stopped(st') { StopMoveKeepsHost(st, st', rs, hpc, pc, pc'); }
    else if st == EsClear { RunMoveKeepsHost(rs, hpc, pc, pc'); }
    else { WaitMoveKeepsHost(rs, hpc, pc, pc'); }
  }

  lemma SteadyMoveKeepsHost(st: EngineStatus, rs: ResamplerStatus, hpc: HostPc, pc: EnginePc, pc': EnginePc)
    requires HostInv(st, rs, hpc, pc) && EngineMove(st, st, pc, pc') && st == EsSteady
    ensures HostStands(st, rs, hpc, pc')
  {
  }

  lemma EngineMoveKeepsHost(st: EngineStatus, st': EngineStatus, rs: ResamplerStatus, hpc: HostPc, pc: EnginePc,
                            pc': EnginePc)
    requires HostInv(st, rs, hpc, pc) && EngineMove(st, st', pc, pc') && EngineStands(st', pc')
    ensures HostInv(st', rs, hpc, pc')
  {
    if st != st' { LoudMoveKeepsHost(st, st', rs, hpc, pc, pc'); }
    else if st == EsSteady { SteadyMoveKeepsHost(st, rs, hpc, pc, pc'); }
    else { QuietMoveKeepsHost(st, rs, hpc, pc, pc'); }
    hide HostStands, EngineStands;
    assert rs != RsReady ==> Started(pc');
  }

  // ----- The host thread -----

  /** The decision of a cycle is one of the points that the statuses allow. */
  lemma CycleTarget(h: HostThread, line: Dll.Overbridge, now: nat, xrun: bool, es: EngineStatus, rs: ResamplerStatus,
                    x: Input)
    ensures var d := Cycle(h, line, now, xrun, es, rs, x);
            && d.rs == h.rs
            && (d.pc.Idle?
                || (d.pc.SetBoot? && rs == RsReady && es == EsWait)
                || (d.pc.SetTune? && rs == RsBoot)
                || (d.pc.RunEngine? && (rs == RsTune || rs == RsRetune))
                || (d.pc.SetRetune? && rs == RsRun))
  {
    hide Dll.HostUpdateError, Dll.HostUpdate, Dll.HostClamps, Dll.HostSetLoopFilter, Dll.Tuned, Elapsed;
  }

  lemma SamplingKeepsInv(sh: Shared, h: HostThread, x: Input, epc: EnginePc)
    requires HostInv(sh.status, h.rs, h.pc, epc)
    requires h.pc.SampleEngine? || h.pc.SampleOwn? || h.pc.NotifySteady?
    ensures var (sh', h') := ComputeStep(sh, h, x);
            HostInv(sh'.status, h'.rs, h'.pc, epc)
  {
    hide Cycle;
  }

  lemma LoadKeepsInv(sh: Shared, h: HostThread, x: Input, epc: EnginePc)
    requires HostInv(sh.status, h.rs, h.pc, epc) && h.pc.Load?
    ensures var (sh', h') := ComputeStep(sh, h, x);
            HostInv(sh'.status, h'.rs, h'.pc, epc)
  {
    CycleTarget(h, sh.line, h.pc.now, h.pc.xrun, h.pc.es, h.pc.rs, x);
    hide Cycle;
  }

  lemma SettingKeepsInv(sh: Shared, h: HostThread, x: Input, epc: EnginePc)
    requires HostInv(sh.status, h.rs, h.pc, epc)
    requires h.pc.SetBoot? || h.pc.SetTune? || h.pc.RunEngine? || h.pc.RunOwn? || h.pc.SetRetune?
    ensures var (sh', h') := ComputeStep(sh, h, x);
            HostInv(sh'.status, h'.rs, h'.pc, epc)
  {
    hide Cycle;
  }

  lemma DroppingKeepsInv(c: Config, sh: Shared, h: HostThread, x: Input, epc: EnginePc)
    requires ValidConfig(c) && HostInv(sh.status, h.rs, h.pc, epc)
    requires h.pc.DropSpace? || h.pc.Drop? || h.pc.AskClear?
    ensures var (sh', h') := ClearStep(c, sh, h, x);
            HostInv(sh'.status, h'.rs, h'.pc, epc)
  {
    hide Ring.Discard, Ring.FrameBytes, Dll.HostReset, WithRatios;
  }

  lemma ResettingKeepsInv(c: Config, sh: Shared, h: HostThread, x: Input, epc: EnginePc)
    requires ValidConfig(c) && HostInv(sh.status, h.rs, h.pc, epc)
    requires h.pc.ResetSample? || h.pc.ResetInit? || h.pc.ResetEngine? || h.pc.ResetOwn?
    ensures var (sh', h') := ClearStep(c, sh, h, x);
            HostInv(sh'.status, h'.rs, h'.pc, epc)
  {
    hide HostInv, Dll.HostReset, Dll.HostInit, Level, Guarded, Ring.Discard, Ring.FrameBytes, O2hFrame;
    match h.pc {
      case ResetSample => ResetMaySample(sh.status, h.rs, epc);
      case ResetInit(es) => ResetMayForce(sh.status, es, h.rs, epc);
      case ResetEngine(es) => ForcingKeepsInv(sh.status, es, h.rs, epc);
      case ResetOwn => ReadyKeepsInv(sh.status, h.rs, epc);
    }
  }

  lemma ResetMaySample(st: EngineStatus, rs: ResamplerStatus, epc: EnginePc)
    requires HostInv(st, rs, ResetSample, epc)
    ensures HostInv(st, rs, ResetInit(st), epc)
  {
  }

  lemma ResetMayForce(st: EngineStatus, es: EngineStatus, rs: ResamplerStatus, epc: EnginePc)
    requires HostInv(st, rs, ResetInit(es), epc)
    ensures HostInv(st, rs, ResetEngine(es), epc)
  {
    hide EngineStands, Coupled, ResetSampleHolds, SampleHolds, Started, Level;
  }

  lemma ReadyKeepsInv(st: EngineStatus, rs: ResamplerStatus, epc: EnginePc)
    requires HostInv(st, rs, ResetOwn, epc)
    ensures HostInv(st, RsReady, DropSpace(Return), epc)
  {
  }

  /** A reset that found a booted engine sends it back, whatever it does by now. */
  lemma ForcingKeepsInv(st: EngineStatus, es: EngineStatus, rs: ResamplerStatus, epc: EnginePc)
    requires HostInv(st, rs, ResetEngine(es), epc)
    ensures HostInv(if Level(es) > Level(EsBoot) then Guarded(st, EsBoot) else st, rs, ResetOwn, epc)
  {
  }

  predicate Quiet(pc: HostPc) {
    !Computing(pc) && !Clearing(pc)
  }

  /** Audio never touches a status. */
  lemma AudioEffect(c: Config, sh: Shared, h: HostThread, x: Input)
    requires ValidConfig(c) && Quiet(h.pc) && !h.pc.Idle?
    ensures var (sh', h') := AudioStep(c, sh, h, x);
            sh'.status == sh.status && h'.rs == h.rs && Quiet(h'.pc)
  {
    hide Ring.Discard, Ring.FrameBytes, Ring.Read, Ring.Write, Ring.Min, Dll.CountFrames, Requests.Requested,
         Requests.Charged;
  }

  lemma AudioKeepsInv(c: Config, sh: Shared, h: HostThread, x: Input, epc: EnginePc)
    requires ValidConfig(c) && HostInv(sh.status, h.rs, h.pc, epc) && Quiet(h.pc) && !h.pc.Idle?
    ensures var (sh', h') := AudioStep(c, sh, h, x);
            HostInv(sh'.status, h'.rs, h'.pc, epc)
  {
    AudioEffect(c, sh, h, x);
    hide AudioStep;
  }

  lemma BeginKeepsInv(st: EngineStatus, h: HostThread, call: Call, epc: EnginePc)
    requires HostInv(st, h.rs, h.pc, epc) && h.pc.Idle?
    ensures HostInv(st, Begin(h, call).rs, Begin(h, call).pc, epc)
  {
  }

  lemma HostMovesKeepInv(c: Config, sh: Shared, h: HostThread, x: Input, epc: EnginePc)
    requires ValidConfig(c) && HostInv(sh.status, h.rs, h.pc, epc)
    ensures var (sh', h') := HostStep(c, sh, h, x);
            HostInv(sh'.status, h'.rs, h'.pc, epc)
  {
    hide ComputeStep, ClearStep, AudioStep, HostInv, Begin;
    match h.pc {
      case Idle => BeginKeepsInv(sh.status, h, x.call, epc);
      case SampleEngine(_, _) => SamplingKeepsInv(sh, h, x, epc);
      case SampleOwn(_, _, _) => SamplingKeepsInv(sh, h, x, epc);
      case NotifySteady => SamplingKeepsInv(sh, h, x, epc);
      case Load(_, _, _, _) => LoadKeepsInv(sh, h, x, epc);
      case DropSpace(_) => DroppingKeepsInv(c, sh, h, x, epc);
      case Drop(_, _) => DroppingKeepsInv(c, sh, h, x, epc);
      case AskClear(_) => DroppingKeepsInv(c, sh, h, x, epc);
      case _ =>
        if Computing(h.pc) { SettingKeepsInv(sh, h, x, epc); }
        else if Clearing(h.pc) { ResettingKeepsInv(c, sh, h, x, epc); }
        else { AudioKeepsInv(c, sh, h, x, epc); }
    }
  }

  lemma StopKeepsInv(st: EngineStatus, rs: ResamplerStatus, hpc: HostPc, epc: EnginePc)
    requires HostInv(st, rs, hpc, epc)
    ensures HostInv(Guarded(st, EsStop), rs, hpc, epc)
  {
  }

  lemma StepKeepsInv(c: Config, w: World, ev: Event)
    requires ValidConfig(c) && ValidEvent(c, ev) && c.dll && Inv(w)
    ensures Inv(Next(c, w, ev))
  {
    hide EngineStep, HostStep, HostInv;
    match ev {
      case EngineMoves(u) =>
        assert EngineStands(w.sh.status, w.e.pc) by { InvStands(w.sh.status, w.h.rs, w.h.pc, w.e.pc); }
        EngineMoves(c, w.sh, w.e, u);
        var (sh, e) := EngineStep(c, w.sh, w.e, u);
        EngineMoveKeepsHost(w.sh.status, sh.status, w.h.rs, w.h.pc, w.e.pc, e.pc);
      case HostMoves(x) =>
        HostMovesKeepInv(c, w.sh, w.h, x, w.e.pc);
      case StopRequested =>
        StopKeepsInv(w.sh.status, w.h.rs, w.h.pc, w.e.pc);
      case OptionsSet(_, _) =>
    }
  }

  lemma InvStands(st: EngineStatus, rs: ResamplerStatus, hpc: HostPc, epc: EnginePc)
    requires HostInv(st, rs, hpc, epc)
    ensures EngineStands(st, epc)
  {
  }

  lemma {:induction false} RunKeepsInv(c: Config, w: World, events: seq<Event>)
    requires ValidConfig(c) && c.dll && Initial(c, w) && ValidEvents(c, events)
    ensures Inv(Run(c, w, events))
  {
    if events != [] {
      hide Next, HostInv;
      RunKeepsInv(c, w, events[..|events| - 1]);
      StepKeepsInv(c, Run(c, w, events[..|events| - 1]), events[|events| - 1]);
    }
  }

  /** Between two calls of the host the statuses are coupled: while the resampler is ready the engine
      neither runs nor clears; while it boots or tunes the engine waits, unless it was stopped; while
      it runs or retunes the engine runs or clears, unless it was stopped. */
  lemma StatusesStayCoupled(c: Config, w: World, events: seq<Event>)
    requires ValidConfig(c) && c.dll && Initial(c, w) && ValidEvents(c, events)
    ensures var n := Run(c, w, events);
            n.h.pc.Idle? ==> Coupled(n.sh.status, n.h.rs)
  {
    hide Run;
    RunKeepsInv(c, w, events);
  }
}
