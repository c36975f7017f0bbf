/** What keeps the engine going: its transfers stay in flight, and whatever sends it back to the top of its loop, it
    comes to handle USB events again, running if it had been asked to clear. */
module Serving {
  import opened Status
  import opened Machine
  import opened Protocol
  import Stopping

  // ----- Transfers stay in flight -----

  /** The first submission of each direction succeeds; it is not noticed if it does not. */
  predicate FirstSucceed(e: Engine, ev: Event) {
    ev.EngineMoves? && (e.pc.SubmitFirstIn? || e.pc.SubmitFirstOut?) ==> ev.u.submitOk
  }

  predicate StartsWell(c: Config, w: World, events: seq<Event>)
    requires ValidConfig(c)
  {
    events == [] ||
    (var before, ev := events[..|events| - 1], events[|events| - 1];
     StartsWell(c, w, before) && FirstSucceed(Run(c, w, before).e, ev))
  }

  /** The transfer of each direction is in flight, or its callback is at work. */
  predicate BothFly(e: Engine) {
    && e.inFlight + (if e.pc.In? then 1 else 0) == 1
    && e.outFlight + (if e.pc.Out? then 1 else 0) == 1
  }

  predicate Flies(st: EngineStatus, e: Engine) {
    match e.pc
    case InitLine => e.inFlight == 0 && e.outFlight == 0
    case SubmitFirstIn => e.inFlight == 0 && e.outFlight == 0
    case SubmitFirstOut => e.inFlight == 1 && e.outFlight == 0
    case PublishReady => BothFly(e)
    case _ => Stopped(st) || BothFly(e)
  }

  /** Until READY is published. */
  lemma FirstFlies(c: Config, sh: Shared, e: Engine, u: Usb)
    requires ValidConfig(c) && Flies(sh.status, e) && FirstSucceed(e, EngineMoves(u)) && BeforeReady(e.pc)
    ensures var (sh', e') := EngineStep(c, sh, e, u); Flies(sh'.status, e')
  {
    hide Dll.OverbridgeInit, H2oTransfer, O2hTransfer, Zeros, Guarded, InStep, OutStep;
  }

  /** After that both fly on, unless a callback finds the engine stopped, or stops it. */
  lemma MainFlies(c: Config, sh: Shared, e: Engine, u: Usb)
    requires ValidConfig(c) && BothFly(e) && !BeforeReady(e.pc) && !e.pc.In? && !e.pc.Out?
    ensures BothFly(MainStep(c, sh, e, u).1)
  {
    hide Ring.Discard, Ring.FrameBytes, H2oTransfer, Zeros, Guarded, TopLeft, BootEntered, Level;
  }

  lemma InFlies(c: Config, sh: Shared, e: Engine, u: Usb)
    requires BothFly(e) && e.pc.In?
    ensures var (sh', e') := InStep(c, sh, e, e.pc.inPc, e.pc.draining, u); BothFly(e') || Stopped(sh'.status)
  {
    hide Dll.OverbridgeUpdate, Ring.Write, O2hTransfer;
  }

  lemma OutFlies(c: Config, sh: Shared, e: Engine, u: Usb)
    requires ValidConfig(c) && BothFly(e) && e.pc.Out?
    ensures var (sh', e') := OutStep(c, sh, e, e.pc.outPc, e.pc.draining, u); BothFly(e') || Stopped(sh'.status)
  {
    hide Ring.Discard, Ring.FrameBytes, Ring.Read, Ring.Front, H2oTransfer, Zeros;
  }

  lemma EngineFlies(c: Config, sh: Shared, e: Engine, u: Usb)
    requires ValidConfig(c) && Flies(sh.status, e) && FirstSucceed(e, EngineMoves(u))
    ensures var (sh', e') := EngineStep(c, sh, e, u); Flies(sh'.status, e')
  {
    if BeforeReady(e.pc) {
      FirstFlies(c, sh, e, u);
      hide EngineStep, Flies;
    } else {
      Stopping.EngineStaysPublished(c, sh, e, u);
      if Stopped(sh.status) {
        Stopping.StoppedEngine(c, sh, e, u);
        hide EngineStep, Stopped, BothFly;
      } else {
        match e.pc {
          case In(_, _) => InFlies(c, sh, e, u);
          case Out(_, _) => OutFlies(c, sh, e, u);
          case _ => MainFlies(c, sh, e, u);
        }
        hide MainStep, InStep, OutStep, Stopped, BothFly;
      }
    }
  }

  /** A stop is final, so no other thread can bring back transfers that were given up. */
  lemma OthersFly(c: Config, w: World, ev: Event)
    requires ValidConfig(c) && Flies(w.sh.status, w.e) && !ev.EngineMoves?
    ensures Flies(Next(c, w, ev).sh.status, w.e)
  {
    if Stopping.Published(w) { Stopping.StopIsFinalInStep(c, w, ev); }
    hide Next, Stopped;
  }

  lemma {:induction false} RunFlies(c: Config, w: World, events: seq<Event>)
    requires ValidConfig(c) && Initial(c, w) && StartsWell(c, w, events)
    ensures Flies(Run(c, w, events).sh.status, Run(c, w, events).e)
  {
    if events != [] {
      var n, ev := Run(c, w, events[..|events| - 1]), events[|events| - 1];
      RunFlies(c, w, events[..|events| - 1]);
      hide EngineStep, HostStep, Flies;
      if ev.EngineMoves? { EngineFlies(c, n.sh, n.e, ev.u); } else { OthersFly(c, n, ev); }
    }
  }

  /** No transfer is ever given up without a stop: if the first submissions succeed, then in every run, from READY on,
      the transfer of each direction is in flight or its callback is at work, or the engine has been stopped, as it
      is by a later submission that fails. */
  lemma TransfersStayInFlight(c: Config, w: World, events: seq<Event>)
    requires ValidConfig(c) && Initial(c, w) && StartsWell(c, w, events)
    ensures var n := Run(c, w, events); Stopping.Published(n) && !Stopped(n.sh.status) ==> BothFly(n.e)
  {
    RunFlies(c, w, events);
    hide Run, BothFly, Stopped;
  }

  // ----- The top of the loop -----

  predicate AtTop(c: Config, n: World) {
    && (n.e.pc.LeaveTop? ==> n.e.reading == !c.dll)
    && EngineStands(n.sh.status, n.e.pc)
  }

  /** What the engine's thread may find where it stands also holds without a host. */
  lemma MainStandsAlone(c: Config, sh: Shared, e: Engine, u: Usb)
    requires ValidConfig(c) && !c.dll && EngineStands(sh.status, e.pc) && !e.pc.In? && !e.pc.Out?
    ensures var (sh', e') := MainStep(c, sh, e, u); EngineStands(sh'.status, e'.pc)
  {
    hide Ring.Discard, Ring.FrameBytes, O2hTransfer, H2oTransfer, Zeros;
  }

  lemma StandsAlone(c: Config, n: World, ev: Event)
    requires ValidConfig(c) && !c.dll && ValidEvent(c, ev) && EngineStands(n.sh.status, n.e.pc)
    ensures var m := Next(c, n, ev); EngineStands(m.sh.status, m.e.pc)
  {
    match ev {
      case EngineMoves(u) =>
        match n.e.pc {
          case In(_, _) => InMoves(c, n.sh, n.e, u);
          case Out(_, _) => OutMoves(c, n.sh, n.e, u);
          case _ => MainStandsAlone(c, n.sh, n.e, u);
        }
        hide MainStep, InStep, OutStep, EngineStands, EngineMove;
      case _ =>
        hide EngineStep, HostStep;
    }
  }

  lemma TopIsFresh(c: Config, sh: Shared, e: Engine, u: Usb)
    requires ValidConfig(c)
    ensures var e' := EngineStep(c, sh, e, u).1; e'.pc.LeaveTop? ==> e'.reading == !c.dll
  {
    hide Dll.OverbridgeInit, Dll.OverbridgeUpdate, Ring.Discard, Ring.FrameBytes, Ring.Read, Ring.Front, Ring.Write,
         O2hTransfer, H2oTransfer, Zeros, Guarded, TopLeft, BootEntered, Level;
  }

  lemma {:induction false} RunAtTop(c: Config, w: World, events: seq<Event>)
    requires ValidConfig(c) && Initial(c, w) && ValidEvents(c, events)
    ensures AtTop(c, Run(c, w, events))
  {
    if c.dll {
      Protocol.RunKeepsInv(c, w, events);
      var n := Run(c, w, events);
      InvStands(n.sh.status, n.h.rs, n.h.pc, n.e.pc);
    }
    if events != [] {
      var n, ev := Run(c, w, events[..|events| - 1]), events[|events| - 1];
      RunAtTop(c, w, events[..|events| - 1]);
      if !c.dll { StandsAlone(c, n, ev); }
      hide EngineStep, HostStep, EngineStands, HostInv;
      if ev.EngineMoves? { TopIsFresh(c, n.sh, n.e, ev.u); }
    }
  }

  /** In every run, with or without a DLL, the engine boots only from STEADY, or has been stopped. */
  lemma BootsFromSteady(c: Config, w: World, events: seq<Event>, u: Usb)
    requires ValidConfig(c) && Initial(c, w) && ValidEvents(c, events)
    ensures var n := Run(c, w, events);
            n.e.pc.EnterBoot? ==>
              var m := Next(c, n, EngineMoves(u));
              if n.sh.status == EsSteady then m.sh.status == EsBoot && m.e.pc == LoopTop
              else Stopped(n.sh.status) && m.sh == n.sh && m.e.pc == Done
  {
    RunAtTop(c, w, events);
    hide Run, InStep, OutStep, Initial, ValidEvents;
  }

  /** In every run, when the engine leaves the top of its loop, with or without a DLL: it is stopped and done, or it
      goes on to handle events, at least waiting, and running if it had been asked to clear or has no DLL; and then
      it reads from the host only if it has no DLL. */
  lemma TopIsLeft(c: Config, w: World, events: seq<Event>, u: Usb)
    requires ValidConfig(c) && Initial(c, w) && ValidEvents(c, events)
    ensures var n := Run(c, w, events);
            var m := Next(c, n, EngineMoves(u));
            n.e.pc.LeaveTop? ==>
              if Stopped(n.sh.status) then m.e.pc.Done? && m.sh == n.sh
              else
                && m.e.pc.PollStatus? && Level(m.sh.status) >= Level(EsWait) && m.e.reading == !c.dll
                && (n.sh.status == EsClear || !c.dll ==> m.sh.status == EsRun)
                && (c.dll && n.sh.status == EsBoot ==> m.sh.status == EsWait)
                && (c.dll && Level(n.sh.status) >= Level(EsWait) ==> m.sh.status == n.sh.status)
  {
    RunAtTop(c, w, events);
    hide Run, InStep, OutStep, Initial, ValidEvents;
  }

  // ----- Back to the events -----

  /** Between two times of handling events. */
  predicate InLoop(pc: EnginePc) {
    pc.LoopTop? || pc.LeaveTop? || pc.PollStatus? || pc.CheckLeave? || pc.ClearSpace? || pc.ClearDiscard?
    || pc.ClearSilence?
  }

  function StepsToEvents(st: EngineStatus, pc: EnginePc): nat {
    match pc
    case PollStatus => if Level(st) >= Level(EsWait) then 1 else 8
    case CheckLeave => 7
    case ClearSpace => 6
    case ClearDiscard(_) => 5
    case ClearSilence => 4
    case LoopTop => 3
    case LeaveTop => 2
    case _ => 0
  }

  /** No other thread stops the engine, nor asks anything of it that is about to handle events. */
  predicate Undisturbed(c: Config, w: World, events: seq<Event>)
    requires ValidConfig(c)
  {
    events == [] ||
    (var n, m := Run(c, w, events[..|events| - 1]), Run(c, w, events);
     && Undisturbed(c, w, events[..|events| - 1])
     && (!events[|events| - 1].EngineMoves? ==>
           Level(m.sh.status) >= (if n.e.pc.PollStatus? && Level(n.sh.status) >= Level(EsWait) then Level(EsWait)
                                  else Level(EsBoot))))
  }

  /** It has not handled events yet. */
  predicate Away(c: Config, w: World, events: seq<Event>)
    requires ValidConfig(c)
  {
    InLoop(Run(c, w, events).e.pc) && (events == [] || Away(c, w, events[..|events| - 1]))
  }

  lemma CloserToEvents(c: Config, sh: Shared, e: Engine, u: Usb)
    requires ValidConfig(c) && InLoop(e.pc) && Level(sh.status) >= Level(EsBoot)
    ensures var (sh', e') := EngineStep(c, sh, e, u);
            && StepsToEvents(sh'.status, e'.pc) < StepsToEvents(sh.status, e.pc)
            && (InLoop(e'.pc) || e'.pc.HandleEvents?) && Level(sh'.status) >= Level(EsBoot)
  {
    hide Ring.Discard, Ring.FrameBytes, H2oTransfer, Zeros, InStep, OutStep;
  }

  lemma WithinEight(st: EngineStatus, pc: EnginePc)
    ensures InLoop(pc) ==> 1 <= StepsToEvents(st, pc) <= 8
  {
  }

  lemma NotSentBack(st: EngineStatus, st': EngineStatus, pc: EnginePc)
    requires pc.PollStatus? && Level(st) >= Level(EsWait) ==> Level(st') >= Level(EsWait)
    ensures StepsToEvents(st', pc) <= StepsToEvents(st, pc)
  {
  }

  /** However often the engine is asked to clear, to boot or to run: unless it is stopped it handles events again
      within eight of its own steps, if nobody sends it back at the last moment. */
  lemma {:induction false} EventsAreHandled(c: Config, w: World, events: seq<Event>)
    requires ValidConfig(c) && Level(w.sh.status) >= Level(EsBoot)
    requires Undisturbed(c, w, events) && Away(c, w, events)
    ensures var n := Run(c, w, events);
            && Level(n.sh.status) >= Level(EsBoot)
            && StepsToEvents(n.sh.status, n.e.pc) + Stopping.EngineSteps(events) <= StepsToEvents(w.sh.status, w.e.pc)
    ensures Stopping.EngineSteps(events) < 8
  {
    assert Level(EsWait) > Level(EsBoot);
    hide Level, StepsToEvents, InLoop, EngineStep, HostStep;
    if events != [] {
      var before, ev := events[..|events| - 1], events[|events| - 1];
      var n := Run(c, w, before);
      EventsAreHandled(c, w, before);
      if ev.EngineMoves? { CloserToEvents(c, n.sh, n.e, ev.u); }
      else { NotSentBack(n.sh.status, Run(c, w, events).sh.status, n.e.pc); }
    }
    WithinEight(Run(c, w, events).sh.status, Run(c, w, events).e.pc);
    WithinEight(w.sh.status, w.e.pc);
    AwayFirst(c, w, events);
  }

  lemma {:induction false} AwayFirst(c: Config, w: World, events: seq<Event>)
    requires ValidConfig(c) && Away(c, w, events)
    ensures InLoop(w.e.pc)
  {
    hide InLoop;
    if events != [] { AwayFirst(c, w, events[..|events| - 1]); }
  }

  /** No other thread changes the status. */
  predicate LeftAlone(c: Config, w: World, events: seq<Event>)
    requires ValidConfig(c)
  {
    events == [] ||
    (&& LeftAlone(c, w, events[..|events| - 1])
     && (!events[|events| - 1].EngineMoves? ==>
           Run(c, w, events).sh.status == Run(c, w, events[..|events| - 1]).sh.status))
  }

  /** Still to clear, or done and running. */
  predicate Clearing(st: EngineStatus, pc: EnginePc) {
    (st == EsClear && InLoop(pc)) || (st == EsRun && pc.PollStatus?) || (st == EsRun && pc.HandleEvents?)
  }

  lemma ClearingStep(c: Config, sh: Shared, e: Engine, u: Usb)
    requires ValidConfig(c) && Clearing(sh.status, e.pc) && !e.pc.HandleEvents?
    ensures var (sh', e') := EngineStep(c, sh, e, u); Clearing(sh'.status, e'.pc)
  {
    hide Ring.Discard, Ring.FrameBytes, H2oTransfer, Zeros, InStep, OutStep;
  }

  /** So an engine that was asked to clear, and is left alone from then on, clears, and runs when it comes to handle
      events, which it does within eight of its own steps. */
  lemma {:induction false} ClearEndsInRun(c: Config, w: World, events: seq<Event>)
    requires ValidConfig(c) && InLoop(w.e.pc) && w.sh.status == EsClear && LeftAlone(c, w, events)
    requires events != [] ==> Away(c, w, events[..|events| - 1])
    ensures var n := Run(c, w, events);
            && Clearing(n.sh.status, n.e.pc)
            && StepsToEvents(n.sh.status, n.e.pc) + Stopping.EngineSteps(events) <= StepsToEvents(EsClear, w.e.pc)
    ensures Run(c, w, events).e.pc.HandleEvents? ==> Run(c, w, events).sh.status == EsRun
    ensures Stopping.EngineSteps(events) >= 8 ==> Run(c, w, events).e.pc.HandleEvents?
  {
    if events != [] {
      var n, ev := Run(c, w, events[..|events| - 1]), events[|events| - 1];
      ClearEndsInRun(c, w, events[..|events| - 1]);
      hide EngineStep, HostStep;
      if ev.EngineMoves? {
        CloserToEvents(c, n.sh, n.e, ev.u);
        ClearingStep(c, n.sh, n.e, ev.u);
      }
    }
  }
}
