/** The loop inside the two threads: what any run of the machine does to it is a run of the loop's own
    events, so that everything proved about the loop holds for the engine and the resampler. */
module Connected {
  import opened Words
  import opened Dll
  import opened Status
  import opened Machine
  import DllRefinement
  import DllWrappedClock
  import HostLoop
  import Reals
  import Ring
  import Requests

  type LoopEvent = DllRefinement.Event

  function LoopOf(w: World): DllRefinement.Loop {
    DllRefinement.Loop(w.sh.line, w.h.dll)
  }

  /** The ideal loop that starts there: its counter is the signed one. */
  function IdealLoopOf(w: World): DllRefinement.Loop {
    DllRefinement.IdealOf(LoopOf(w))
  }

  function EngineEvents(c: Config, e: Engine, u: Usb): seq<LoopEvent> {
    if !c.dll then []
    else
      match e.pc
      case InitLine => [DllRefinement.Start]
      case In(InUpdate, _) => [DllRefinement.Arrival(u.now)]
      case _ => []
  }

  /** The bandwidths of the loop filter, by what the cycle decides. */
  function Bandwidth(pc: HostPc): real {
    match pc
    case SetBoot(_) => 1.0
    case SetTune(_) => 0.5
    case RunEngine => 0.05
    case SetRetune(_) => 0.5
    case _ => 0.0
  }

  function CycleEvents(sh: Shared, h: HostThread, now: nat, xrun: bool, es: EngineStatus, rs: ResamplerStatus,
                       x: Input): seq<LoopEvent> {
    var pc := Cycle(h, sh.line, now, xrun, es, rs, x).pc;
    [DllRefinement.Cycle(now, !(rs == RsReady && es == EsWait), x.undefined)]
    + if pc.Idle? then [] else [DllRefinement.Filter(Bandwidth(pc), h.bufsize, h.samplerate, x.decay)]
  }

  /** The frames that the reader returns. */
  function FramesRead(c: Config, h: HostThread, space: nat): nat
    requires ValidConfig(c)
  {
    if h.reading && space >= O2hFrame(c) then Ring.Min(space / O2hFrame(c), MAX_READ_FRAMES) else MAX_READ_FRAMES
  }

  function HostEvents(c: Config, sh: Shared, h: HostThread, x: Input): seq<LoopEvent>
    requires ValidConfig(c)
  {
    match h.pc
    case Load(now, xrun, es, rs) => CycleEvents(sh, h, now, xrun, es, rs, x)
    case ResetInit(_) => [DllRefinement.Reset(h.samplerate, h.bufsize, c.frames, x.counter)]
    case ReaderTake(space) => [DllRefinement.Reader(FramesRead(c, h, space))]
    case _ => []
  }

  function LoopEvents(c: Config, w: World, ev: Event): seq<LoopEvent>
    requires ValidConfig(c)
  {
    match ev
    case EngineMoves(u) => EngineEvents(c, w.e, u)
    case HostMoves(x) => HostEvents(c, w.sh, w.h, x)
    case _ => []
  }

  /** All that a run does to the loop. */
  function Trace(c: Config, w: World, events: seq<Event>): seq<LoopEvent>
    requires ValidConfig(c)
  {
    if events == [] then []
    else
      var before := events[..|events| - 1];
      Trace(c, w, before) + LoopEvents(c, Run(c, w, before), events[|events| - 1])
  }

  // ----- One step -----

  function LoopRun(c: Config, s: DllRefinement.Loop, events: seq<LoopEvent>): DllRefinement.Loop
    requires ValidConfig(c)
  {
    DllRefinement.Run(s, U32(c.frames), events)
  }

  lemma OneEvent(c: Config, s: DllRefinement.Loop, e: LoopEvent)
    requires ValidConfig(c)
    ensures LoopRun(c, s, []) == s && LoopRun(c, s, [e]) == DllRefinement.Step(s, U32(c.frames), e)
  {
    assert [e][..0] == [];
    hide DllRefinement.Step;
  }

  lemma {:induction false} RunsCompose(c: Config, s: DllRefinement.Loop, xs: seq<LoopEvent>, ys: seq<LoopEvent>)
    requires ValidConfig(c)
    ensures LoopRun(c, s, xs + ys) == LoopRun(c, LoopRun(c, s, xs), ys)
  {
    if ys == [] {
      assert xs + ys == xs;
    } else {
      var zs, y := ys[..|ys| - 1], ys[|ys| - 1];
      RunsCompose(c, s, xs, zs);
      assert (xs + ys)[..|xs + ys| - 1] == xs + zs;
      hide DllRefinement.Step;
    }
  }

  lemma MainTouchesLoop(c: Config, sh: Shared, e: Engine, u: Usb)
    requires ValidConfig(c) && !e.pc.In? && !e.pc.Out?
    ensures MainStep(c, sh, e, u).0.line
            == if e.pc.InitLine? && c.dll then OverbridgeInit(sh.line, OB_SAMPLE_RATE, c.frames) else sh.line
  {
    hide OverbridgeInit, Ring.Discard, Ring.FrameBytes, H2oTransfer, Zeros, Guarded, Status.TopLeft, BootEntered, Level;
  }

  lemma CallbacksTouchLoop(c: Config, sh: Shared, e: Engine, u: Usb)
    requires ValidConfig(c) && (e.pc.In? || e.pc.Out?)
    ensures EngineStep(c, sh, e, u).0.line
            == if e.pc.In? && e.pc.inPc.InUpdate? && c.dll then OverbridgeUpdate(sh.line, U32(c.frames), u.now)
                else sh.line
  {
    hide OverbridgeUpdate, Ring.Discard, Ring.FrameBytes, Ring.Read, Ring.Front, Ring.Write, O2hTransfer, H2oTransfer,
         Zeros, Guarded, Level;
  }

  lemma EngineStepIsLoop(c: Config, w: World, u: Usb)
    requires ValidConfig(c)
    ensures LoopOf(Next(c, w, EngineMoves(u))) == LoopRun(c, LoopOf(w), EngineEvents(c, w.e, u))
  {
    var s := LoopOf(w);
    OneEvent(c, s, DllRefinement.Start);
    OneEvent(c, s, DllRefinement.Arrival(u.now));
    hide LoopRun, OverbridgeUpdate, OverbridgeInit;
    if w.e.pc.In? || w.e.pc.Out? {
      CallbacksTouchLoop(c, w.sh, w.e, u);
      hide EngineStep;
    } else {
      MainTouchesLoop(c, w.sh, w.e, u);
      hide MainStep;
    }
  }

  lemma WithFilterIsLoop(h: HostThread, line: Overbridge, frames: uint32, bw: real, decay: real)
    ensures DllRefinement.Loop(line, WithFilter(h, bw, decay).dll)
            == DllRefinement.Step(DllRefinement.Loop(line, h.dll), frames,
                                  DllRefinement.Filter(bw, h.bufsize, h.samplerate, decay))
  {
    hide HostSetLoopFilter;
  }

  /** What a cycle does to the loop, before and after it decides. */
  lemma DecideDll(h: HostThread, now: nat, rs: ResamplerStatus, xrun: bool, clamped: bool, decay: real)
    ensures var d := Decide(h, now, rs, xrun, clamped, decay);
            if d.pc.Idle? then d.dll == h.dll
            else d.dll == WithFilter(h, Bandwidth(d.pc), decay).dll
  {
    hide HostSetLoopFilter, Tuned, Elapsed;
  }

  lemma CycleDll(h: HostThread, line: Overbridge, now: nat, xrun: bool, es: EngineStatus, rs: ResamplerStatus, x: Input)
    ensures var d := Cycle(h, line, now, xrun, es, rs, x);
            var m := HostUpdateError(LoadOverbridge(h.dll, line), now, x.undefined);
            var f := h.(dll := if rs == RsReady && es == EsWait then m else HostUpdate(m));
            if d.pc.Idle? then d.dll == f.dll else d.dll == WithFilter(f, Bandwidth(d.pc), x.decay).dll
  {
    hide HostSetLoopFilter, HostUpdateError, HostUpdate, HostClamps;
    var m := Measured(h, line, now, x.undefined);
    if !(rs == RsReady && es == EsWait) {
      var r := WithRatios(m.(dll := HostUpdate(m.dll)));
      DecideDll(r, now, rs, xrun, HostClamps(m.dll), x.decay);
      hide Decide;
    }
  }

  lemma CycleIsLoop(c: Config, w: World, x: Input)
    requires ValidConfig(c) && w.h.pc.Load?
    ensures LoopOf(Next(c, w, HostMoves(x))) == LoopRun(c, LoopOf(w), HostEvents(c, w.sh, w.h, x))
  {
    var s, h, frames := LoopOf(w), w.h, U32(c.frames);
    var Load(now, xrun, es, rs) := h.pc;
    CycleDll(h, w.sh.line, now, xrun, es, rs, x);
    var d := Cycle(h, w.sh.line, now, xrun, es, rs, x);
    var first := DllRefinement.Cycle(now, !(rs == RsReady && es == EsWait), x.undefined);
    var filter := DllRefinement.Filter(Bandwidth(d.pc), h.bufsize, h.samplerate, x.decay);
    OneEvent(c, s, first);
    var t := DllRefinement.Step(s, frames, first);
    OneEvent(c, t, filter);
    RunsCompose(c, s, [first], [filter]);
    WithFilterIsLoop(h.(dll := t.h), w.sh.line, frames, Bandwidth(d.pc), x.decay);
    hide Cycle, LoopRun, HostUpdateError, HostUpdate, WithFilter, HostSetLoopFilter;
    assert [first] + [] == [first];
  }

  lemma AudioDll(c: Config, sh: Shared, h: HostThread, x: Input)
    requires ValidConfig(c)
    ensures var (sh', h') := AudioStep(c, sh, h, x);
            && sh'.line == sh.line
            && h'.dll == if h.pc.ReaderTake? then CountFrames(h.dll, FramesRead(c, h, h.pc.space)) else h.dll
  {
    hide CountFrames, Ring.Discard, Ring.FrameBytes, Ring.Read, Ring.Write, Ring.Min, Requests.Requested,
         Requests.Charged;
  }

  lemma ClearDll(c: Config, sh: Shared, h: HostThread, x: Input)
    requires ValidConfig(c)
    ensures var (sh', h') := ClearStep(c, sh, h, x);
            if h.pc.ResetInit? then
              sh'.line == sh.line.(boot := true)
              && h'.dll == HostReset(HostInit(h.dll), h.samplerate, OB_SAMPLE_RATE, h.bufsize, c.frames, x.counter)
            else
              sh'.line == sh.line && h'.dll == h.dll
  {
    hide HostReset, Ring.Discard, Ring.FrameBytes, Guarded, ClearRequested, Level;
  }

  lemma HostStepIsLoop(c: Config, w: World, x: Input)
    requires ValidConfig(c)
    ensures LoopOf(Next(c, w, HostMoves(x))) == LoopRun(c, LoopOf(w), HostEvents(c, w.sh, w.h, x))
  {
    if w.h.pc.Load? {
      CycleIsLoop(c, w, x);
      hide LoopRun, HostStep, CycleEvents;
    } else {
      OneEvent(c, LoopOf(w), DllRefinement.Reset(w.h.samplerate, w.h.bufsize, c.frames, x.counter));
      if w.h.pc.ReaderTake? { OneEvent(c, LoopOf(w), DllRefinement.Reader(FramesRead(c, w.h, w.h.pc.space))); }
      AudioDll(c, w.sh, w.h, x);
      ClearDll(c, w.sh, w.h, x);
      hide LoopRun, AudioStep, ClearStep, Cycle, HostReset, FramesRead;
    }
  }

  // ----- Runs -----

  /** The line and the host's loop in the machine are those of the loop's own run. */
  lemma {:induction false} MachineRunsTheLoop(c: Config, w: World, events: seq<Event>)
    requires ValidConfig(c)
    ensures LoopOf(Run(c, w, events)) == LoopRun(c, LoopOf(w), Trace(c, w, events))
  {
    if events != [] {
      var before, ev := events[..|events| - 1], events[|events| - 1];
      MachineRunsTheLoop(c, w, before);
      var b := Run(c, w, before);
      RunsCompose(c, LoopOf(w), Trace(c, w, before), LoopEvents(c, b, ev));
      match ev {
        case EngineMoves(u) => EngineStepIsLoop(c, b, u);
        case HostMoves(x) => HostStepIsLoop(c, b, x);
        case _ =>
      }
      hide Next, EngineEvents, HostEvents;
    }
  }

  /** As long as the host neither changes phase nor resets, its stages are the sums over the errors measured since,
      and its ratio answers them, whatever else the two threads do. */
  lemma MachineAnswersErrors(c: Config, w: World, events: seq<Event>)
    requires ValidConfig(c) && HostLoop.OnePhase(Trace(c, w, events))
    ensures var errors := HostLoop.Heard(LoopOf(w), U32(c.frames), Trace(c, w, events));
            var n, h := Run(c, w, events).h.dll, w.h.dll;
            && n.z1 == HostLoop.FirstStage(h, errors) && n.z2 == HostLoop.SecondStage(h, errors)
            && n.z3 == h.z3 + Reals.Product(h.w2, HostLoop.SecondTotal(h, errors))
            && (errors != [] ==> HostLoop.Answers(n))
  {
    hide Run, Trace, DllRefinement.Run, HostLoop.Heard, HostLoop.OnePhase, HostLoop.Filtered, HostLoop.FirstStage,
         HostLoop.SecondStage, HostLoop.SecondTotal, U32;
    MachineRunsTheLoop(c, w, events);
    HostLoop.LoopAnswersErrors(LoopOf(w), U32(c.frames), Trace(c, w, events));
    HostLoop.StagesAreSums(w.h.dll, HostLoop.Heard(LoopOf(w), U32(c.frames), Trace(c, w, events)));
  }

  lemma SmallWord(n: nat)
    requires n < 0x8000_0000
    ensures U32(n) == n
  {
  }

  /** So from every world whose device side has to boot, as at the beginning and after every reset: in every run
      of the two threads whose arrivals and cycles keep the environment's promises, the error, the ratio and
      the filtered period are those of the ideal loop, and the counter is the ideal one modulo 2^32. */
  lemma MachineIsIdeal(c: Config, w: World, events: seq<Event>, start: nat)
    requires ValidConfig(c) && w.sh.line.boot && 0 <= w.h.dll.frames < TWO32
    requires DllRefinement.TameRun(IdealLoopOf(w), U32(c.frames), start, Trace(c, w, events))
    ensures var n, i := Run(c, w, events), DllRefinement.IdealRun(IdealLoopOf(w), U32(c.frames), Trace(c, w, events));
            && n.h.dll.err == i.h.err && n.h.dll.ratio == i.h.ratio
            && n.sh.line.dt == i.o.dt
            && n.h.dll.frames == U32(i.h.frames)
  {
    hide Run, Trace, DllRefinement.Run, DllRefinement.TameRun, DllRefinement.IdealRun, U32;
    MachineRunsTheLoop(c, w, events);
    assert U32(c.frames) < 0x8000_0000 by { SmallWord(c.frames); }
    DllRefinement.ErrorsAndRatiosAreIdeal(LoopOf(w), U32(c.frames), start, Trace(c, w, events));
  }

  /** And when the device keeps its period up to some jitter, from each reset on, the host's cycles come after
      the first transfer and the reader keeps the backlog within 31 bits, nothing about the errors or the line
      has to be promised: the machine's are the ideal ones, over any number of resets. */
  lemma SteadyMachineIsIdeal(c: Config, w: World, events: seq<Event>, start: nat, plan: seq<DllWrappedClock.Clock>)
    requires ValidConfig(c) && w.sh.line.boot && 0 <= w.h.dll.frames < TWO32
    requires DllWrappedClock.Steady(IdealLoopOf(w), U32(c.frames), start, plan, Trace(c, w, events))
    ensures var n, i := Run(c, w, events), DllRefinement.IdealRun(IdealLoopOf(w), U32(c.frames), Trace(c, w, events));
            && n.h.dll.err == i.h.err && n.h.dll.ratio == i.h.ratio
            && n.h.dll.frames == U32(i.h.frames)
            && n.sh.line.dt == i.o.dt
  {
    hide Run, Trace, DllRefinement.Run, DllRefinement.TameRun, DllRefinement.IdealRun, U32, DllWrappedClock.Steady;
    DllWrappedClock.SteadyRunIsTame(IdealLoopOf(w), U32(c.frames), start, plan, Trace(c, w, events));
    MachineIsIdeal(c, w, events, start);
  }
}
