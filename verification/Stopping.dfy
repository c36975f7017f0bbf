/** What a stop does: it is final, the transfers drain, and the engine thread returns, unless the
    stop came while the thread was waiting for the host. */
module Stopping {
  import opened Status
  import opened Machine
  import opened Protocol

  /** READY has been published. */
  predicate Published(w: World) {
    !BeforeReady(w.e.pc)
  }

  // ----- One step of a stopped engine -----

  predicate Submitting(pc: EnginePc) {
    (pc.In? && pc.inPc.InSubmit?) || (pc.Out? && pc.outPc.OutSubmit?)
  }

  function InRank(pc: InPc): nat {
    match pc
    case InDelivered(_) => 10
    case InUpdate => 9
    case InDecoded(_) => 8
    case InSpace => 7
    case InWrite(_) => 6
    case InRecheck => 5
    case InSubmit => 50
  }

  function OutRank(pc: OutPc): nat {
    match pc
    case OutDelivered => 10
    case OutSpace => 9
    case OutMute => 8
    case OutTestRun(_) => 8
    case OutUnflag => 7
    case OutEmpty(_) => 7
    case OutFetch(_) => 7
    case OutBlocks => 6
    case OutRecheck => 5
    case OutSubmit => 50
  }

  function Rank(pc: EnginePc): nat {
    match pc
    case In(inPc, _) => InRank(inPc)
    case Out(outPc, _) => OutRank(outPc)
    case ClearSpace => 5
    case HandleEvents => 4
    case ClearDiscard(_) => 4
    case PollStatus => 3
    case ClearSilence => 3
    case CheckLeave => 2
    case LoopTop => 2
    case AwaitSteady => 2
    case Done => 0
    case _ => 1
  }

  /** How many steps of its own the stopped thread can still take. */
  function StepsLeft(e: Engine): nat {
    40 * (e.inFlight + e.outFlight) + Rank(e.pc)
  }

  /** The call that handles events either delivers a transfer that is in flight, or returns. */
  predicate Productive(e: Engine, u: Usb) {
    e.pc.HandleEvents? || e.pc.Drain? ==>
      u.pick.NoEvent? || (u.pick.DeliverIn? && e.inFlight > 0) || (u.pick.DeliverOut? && e.outFlight > 0)
  }

  /** One step of a stopped engine leaves the status alone, and submits only what had been checked before. */
  predicate Halted(sh: Shared, e: Engine, sh': Shared, e': Engine) {
    && sh'.status == sh.status
    && !Submitting(e'.pc)
    && (e'.submits == e.submits || (Submitting(e.pc) && e'.submits == e.submits + 1))
  }

  /** The thread spins until the host notifies it. Without a host it does not. */
  predicate Spinning(c: Config, e: Engine) {
    c.dll && e.pc.AwaitSteady?
  }

  /** It also brings the thread closer to its end. */
  predicate Closer(c: Config, u: Usb, e: Engine, e': Engine) {
    Productive(e, u) && !Spinning(c, e) ==>
      if e.pc.Done? then e'.pc.Done?
      else StepsLeft(e') < StepsLeft(e) && !Spinning(c, e')
  }

  lemma HaltedMain(c: Config, sh: Shared, e: Engine, u: Usb)
    requires ValidConfig(c) && !BeforeReady(e.pc) && Stopped(sh.status) && !e.pc.In? && !e.pc.Out?
    ensures var (sh', e') := MainStep(c, sh, e, u); Halted(sh, e, sh', e')
  {
    hide Ring.Discard, Ring.FrameBytes, H2oTransfer, Zeros;
  }

  lemma CloserMain(c: Config, sh: Shared, e: Engine, u: Usb)
    requires ValidConfig(c) && !BeforeReady(e.pc) && Stopped(sh.status) && !e.pc.In? && !e.pc.Out?
    ensures Closer(c, u, e, MainStep(c, sh, e, u).1)
  {
    hide Ring.Discard, Ring.FrameBytes, H2oTransfer, Zeros, BootEntered, TopLeft, Guarded;
  }

  lemma HaltedIn(c: Config, sh: Shared, e: Engine, u: Usb)
    requires Stopped(sh.status) && e.pc.In?
    ensures var (sh', e') := InStep(c, sh, e, e.pc.inPc, e.pc.draining, u); Halted(sh, e, sh', e')
  {
    hide Dll.OverbridgeUpdate, Ring.Write, O2hTransfer;
  }

  lemma RankIn(c: Config, sh: Shared, e: Engine, u: Usb)
    requires Level(sh.status) <= Level(EsStop) && e.pc.In? && !Submitting(e.pc)
    ensures var e' := InStep(c, sh, e, e.pc.inPc, e.pc.draining, u).1;
            Rank(e'.pc) < Rank(e.pc) && e'.inFlight == e.inFlight && e'.outFlight == e.outFlight && !e'.pc.AwaitSteady?
  {
    hide Dll.OverbridgeUpdate, Ring.Write, O2hTransfer, Level, Guarded;
  }

  lemma CloserIn(c: Config, sh: Shared, e: Engine, u: Usb)
    requires Stopped(sh.status) && e.pc.In?
    ensures Closer(c, u, e, InStep(c, sh, e, e.pc.inPc, e.pc.draining, u).1)
  {
    hide Level, Guarded;
    if !Submitting(e.pc) {
      RankIn(c, sh, e, u);
      hide InStep, Rank;
    }
  }

  lemma HaltedOut(c: Config, sh: Shared, e: Engine, u: Usb)
    requires ValidConfig(c) && Stopped(sh.status) && e.pc.Out?
    ensures var (sh', e') := OutStep(c, sh, e, e.pc.outPc, e.pc.draining, u); Halted(sh, e, sh', e')
  {
    assert Level(sh.status) <= Level(EsStop) && Guarded(sh.status, EsError) == sh.status;
    hide Ring.Discard, Ring.FrameBytes, Ring.Read, Ring.Front, H2oTransfer, Zeros, Level, Guarded;
  }

  lemma RankOut(c: Config, sh: Shared, e: Engine, u: Usb)
    requires ValidConfig(c) && Level(sh.status) <= Level(EsStop) && e.pc.Out? && !Submitting(e.pc)
    ensures var e' := OutStep(c, sh, e, e.pc.outPc, e.pc.draining, u).1;
            Rank(e'.pc) < Rank(e.pc) && e'.inFlight == e.inFlight && e'.outFlight == e.outFlight && !e'.pc.AwaitSteady?
  {
    hide Ring.Discard, Ring.FrameBytes, Ring.Read, Ring.Front, H2oTransfer, Zeros, Level, Guarded;
  }

  lemma CloserOut(c: Config, sh: Shared, e: Engine, u: Usb)
    requires ValidConfig(c) && Stopped(sh.status) && e.pc.Out?
    ensures Closer(c, u, e, OutStep(c, sh, e, e.pc.outPc, e.pc.draining, u).1)
  {
    hide Level, Guarded;
    if !Submitting(e.pc) {
      RankOut(c, sh, e, u);
      hide OutStep, Rank;
    }
  }

  lemma StoppedEngine(c: Config, sh: Shared, e: Engine, u: Usb)
    requires ValidConfig(c) && !BeforeReady(e.pc) && Stopped(sh.status)
    ensures var (sh', e') := EngineStep(c, sh, e, u); Halted(sh, e, sh', e') && Closer(c, u, e, e')
  {
    hide MainStep, InStep, OutStep, Halted, Closer;
    match e.pc {
      case In(_, _) => HaltedIn(c, sh, e, u); CloserIn(c, sh, e, u);
      case Out(_, _) => HaltedOut(c, sh, e, u); CloserOut(c, sh, e, u);
      case _ => HaltedMain(c, sh, e, u); CloserMain(c, sh, e, u);
    }
  }

  // ----- The status -----

  lemma StopIsFinalInStep(c: Config, w: World, ev: Event)
    requires ValidConfig(c) && Published(w)
    ensures Published(Next(c, w, ev))
    ensures Stopped(w.sh.status) ==> Next(c, w, ev).sh.status == w.sh.status
  {
    match ev {
      case EngineMoves(u) =>
        hide EngineStep;
        EngineStaysPublished(c, w.sh, w.e, u);
        if Stopped(w.sh.status) { StoppedEngine(c, w.sh, w.e, u); }
      case HostMoves(x) =>
        if Stopped(w.sh.status) { HostKeepsStop(c, w.sh, w.h, x); }
        hide HostStep;
      case _ =>
    }
  }

  lemma CallbackStays(c: Config, sh: Shared, e: Engine, u: Usb)
    requires ValidConfig(c) && (e.pc.In? || e.pc.Out?)
    ensures var pc := EngineStep(c, sh, e, u).1.pc; pc.In? || pc.Out? || pc.Drain? || pc.HandleEvents?
  {
    hide Dll.OverbridgeUpdate, Ring.Discard, Ring.FrameBytes, Ring.Read, Ring.Write, Ring.Front,
         O2hTransfer, H2oTransfer, Zeros, Guarded, Level, MainStep;
  }

  lemma EngineStaysPublished(c: Config, sh: Shared, e: Engine, u: Usb)
    requires ValidConfig(c) && !BeforeReady(e.pc)
    ensures !BeforeReady(EngineStep(c, sh, e, u).1.pc)
  {
    if e.pc.In? || e.pc.Out? {
      CallbackStays(c, sh, e, u);
      hide EngineStep;
    } else {
      hide Ring.Discard, Ring.FrameBytes, H2oTransfer, Zeros, Guarded, Level, BootEntered, TopLeft, InStep, OutStep;
    }
  }

  lemma HostKeepsStop(c: Config, sh: Shared, h: HostThread, x: Input)
    requires ValidConfig(c) && Stopped(sh.status)
    ensures HostStep(c, sh, h, x).0.status == sh.status
  {
    hide Cycle, Dll.HostReset, Ring.Discard, Ring.FrameBytes, Ring.Read, Ring.Write, Ring.Min,
         Dll.CountFrames, Requests.Requested, Requests.Charged, WithRatios;
  }

  /** Once READY is published, a status of stop or error never changes again. */
  lemma {:induction false} StopIsFinal(c: Config, w: World, events: seq<Event>)
    requires ValidConfig(c) && Published(w) && Stopped(w.sh.status)
    ensures var n := Run(c, w, events); Published(n) && n.sh.status == w.sh.status
  {
    if events != [] {
      hide Next;
      StopIsFinal(c, w, events[..|events| - 1]);
      StopIsFinalInStep(c, Run(c, w, events[..|events| - 1]), events[|events| - 1]);
    }
  }

  // ----- Transfers -----

  /** At most one transfer per direction is in flight, and none while its callback runs. */
  predicate Flights(e: Engine) {
    && e.inFlight <= 1 && e.outFlight <= 1
    && (e.pc.InitLine? || e.pc.SubmitFirstIn? || e.pc.In? ==> e.inFlight == 0)
    && (e.pc.InitLine? || e.pc.SubmitFirstIn? || e.pc.SubmitFirstOut? || e.pc.Out? ==> e.outFlight == 0)
  }

  lemma FlightsMain(c: Config, sh: Shared, e: Engine, u: Usb)
    requires ValidConfig(c) && Flights(e) && !e.pc.In? && !e.pc.Out?
    ensures Flights(MainStep(c, sh, e, u).1)
  {
    hide Dll.OverbridgeInit, Ring.Discard, Ring.FrameBytes, H2oTransfer, Zeros, Guarded, TopLeft, BootEntered, Level;
  }

  lemma FlightsIn(c: Config, sh: Shared, e: Engine, u: Usb)
    requires Flights(e) && e.pc.In?
    ensures Flights(InStep(c, sh, e, e.pc.inPc, e.pc.draining, u).1)
  {
    hide Dll.OverbridgeUpdate, Ring.Write, O2hTransfer, Guarded, Level;
  }

  lemma FlightsOut(c: Config, sh: Shared, e: Engine, u: Usb)
    requires ValidConfig(c) && Flights(e) && e.pc.Out?
    ensures Flights(OutStep(c, sh, e, e.pc.outPc, e.pc.draining, u).1)
  {
    hide Ring.Discard, Ring.FrameBytes, Ring.Read, Ring.Front, H2oTransfer, Zeros, Guarded, Level;
  }

  lemma FlightsStep(c: Config, sh: Shared, e: Engine, u: Usb)
    requires ValidConfig(c) && Flights(e)
    ensures Flights(EngineStep(c, sh, e, u).1)
  {
    hide MainStep, InStep, OutStep, Flights;
    match e.pc {
      case In(_, _) => FlightsIn(c, sh, e, u);
      case Out(_, _) => FlightsOut(c, sh, e, u);
      case _ => FlightsMain(c, sh, e, u);
    }
  }

  lemma {:induction false} OneTransferPerDirection(c: Config, w: World, events: seq<Event>)
    requires ValidConfig(c) && Initial(c, w)
    ensures Flights(Run(c, w, events).e)
  {
    if events != [] {
      var before, ev := Run(c, w, events[..|events| - 1]), events[|events| - 1];
      OneTransferPerDirection(c, w, events[..|events| - 1]);
      hide EngineStep, HostStep, Flights;
      if ev.EngineMoves? { FlightsStep(c, before.sh, before.e, ev.u); }
    }
  }

  /** After a stop no callback submits a transfer, except one that had already passed its check. */
  lemma {:induction false} NoSubmissionAfterStop(c: Config, w: World, events: seq<Event>)
    requires ValidConfig(c) && Published(w) && Stopped(w.sh.status)
    ensures var n := Run(c, w, events);
            && w.e.submits <= n.e.submits <= w.e.submits + (if Submitting(w.e.pc) then 1 else 0)
            && (Submitting(n.e.pc) ==> Submitting(w.e.pc) && n.e.submits == w.e.submits)
  {
    if events != [] {
      var before, ev := Run(c, w, events[..|events| - 1]), events[|events| - 1];
      NoSubmissionAfterStop(c, w, events[..|events| - 1]);
      StopIsFinal(c, w, events[..|events| - 1]);
      hide EngineStep, HostStep, Stopped, Submitting;
      if ev.EngineMoves? { StoppedEngine(c, before.sh, before.e, ev.u); }
    }
  }

  // ----- The thread -----

  function EngineSteps(events: seq<Event>): nat {
    if events == [] then 0
    else EngineSteps(events[..|events| - 1]) + (if events[|events| - 1].EngineMoves? then 1 else 0)
  }

  /** Every call that handles events returns or delivers, along the whole run. */
  predicate ProductiveRun(c: Config, w: World, events: seq<Event>)
    requires ValidConfig(c)
  {
    events == [] ||
    (var before, ev := events[..|events| - 1], events[|events| - 1];
     ProductiveRun(c, w, before) && (ev.EngineMoves? ==> Productive(Run(c, w, before).e, ev.u)))
  }

  /** A stop that does not find the thread spinning makes it return: it has a bounded number of steps left. */
  lemma {:induction false} ThreadReturns(c: Config, w: World, events: seq<Event>)
    requires ValidConfig(c) && Published(w) && Stopped(w.sh.status) && !Spinning(c, w.e)
    requires ProductiveRun(c, w, events)
    ensures var n := Run(c, w, events);
            && !Spinning(c, n.e)
            && (n.e.pc.Done? || StepsLeft(n.e) + EngineSteps(events) <= StepsLeft(w.e))
  {
    if events != [] {
      var before, ev := Run(c, w, events[..|events| - 1]), events[|events| - 1];
      ThreadReturns(c, w, events[..|events| - 1]);
      StopIsFinal(c, w, events[..|events| - 1]);
      hide EngineStep, HostStep, Stopped, StepsLeft, Productive, Spinning;
      if ev.EngineMoves? { StoppedEngine(c, before.sh, before.e, ev.u); }
    }
  }

  /** The other half: a stop that arrives while the thread spins for the host's notification is never
      noticed. Whatever happens afterwards, the thread keeps spinning. */
  lemma {:induction false} StopWhileAwaitingHangs(c: Config, w: World, events: seq<Event>)
    requires ValidConfig(c) && Spinning(c, w.e) && Stopped(w.sh.status)
    ensures Spinning(c, Run(c, w, events).e)
  {
    if events != [] {
      var before, ev := Run(c, w, events[..|events| - 1]), events[|events| - 1];
      StopWhileAwaitingHangs(c, w, events[..|events| - 1]);
      StopIsFinal(c, w, events[..|events| - 1]);
      hide HostStep;
    }
  }

  /** So, for a thread that has published READY: every long enough run after a stop ends with the thread
      gone exactly when the stop did not find it spinning. */
  lemma StopIsNoticed(c: Config, w: World, events: seq<Event>)
    requires ValidConfig(c) && Published(w) && Stopped(w.sh.status)
    requires ProductiveRun(c, w, events) && EngineSteps(events) > StepsLeft(w.e)
    ensures Run(c, w, events).e.pc.Done? <==> !Spinning(c, w.e)
  {
    if Spinning(c, w.e) {
      StopWhileAwaitingHangs(c, w, events);
    } else {
      ThreadReturns(c, w, events);
    }
  }
}
