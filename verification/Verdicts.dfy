/** The history of the cycles determines the host: the status and the start of the phase are what the entries
    say, and each entry says what the inputs of its cycle demand, no less and no more. */
module Verdicts {
  import opened Status
  import opened Dll
  import opened Machine
  import Earned
  import Protocol
  import Requests
  import Ring

  // ----- What a history says -----

  /** The status that the entries lead to. */
  function StatusOf(log: seq<Entry>): ResamplerStatus {
    if log == [] then RsReady
    else
      match log[|log| - 1]
      case WasReset => RsReady
      case Cycled(_, _, _, _, _, act) =>
        match act
        case Boots => RsBoot
        case Tunes => RsTune
        case Runs => RsRun
        case Retunes => RsRetune
        case _ => StatusOf(log[..|log| - 1])
  }

  /** When the phase began, or was begun anew. */
  function PhaseOf(log: seq<Entry>): nat {
    if log == [] then 0
    else
      match log[|log| - 1]
      case WasReset => 0
      case Cycled(now, _, _, _, _, act) =>
        if act == Stays || act == Runs then PhaseOf(log[..|log| - 1]) else now
  }

  predicate Timed(rs: ResamplerStatus) {
    rs == RsBoot || rs == RsTune || rs == RsRetune
  }

  /** What a cycle must do after this history: boot when it is ready; begin to tune after three seconds of booting,
      and run after four of tuning, with less than a frame of error; tune anew after an xrun or a clamp. */
  function Verdict(log: seq<Entry>, now: nat, xrun: bool, clamped: bool, err: real): Act {
    var waited := now - PhaseOf(log);
    match StatusOf(log)
    case RsReady => Boots
    case RsBoot => if waited > 3_000_000 && Earned.Near(err) then Tunes else Stays
    case RsRun => if xrun || clamped then Retunes else Stays
    case _ =>
      if xrun || clamped then Restarts
      else if waited > 4_000_000 && Earned.Near(err) then Runs
      else Stays
  }

  predicate Fair(log: seq<Entry>, e: Entry) {
    e.Cycled? ==>
      && e.before == StatusOf(log)
      && e.act == Verdict(log, e.now, e.xrun, e.clamped, e.err)
  }

  ghost predicate AllFair(log: seq<Entry>) {
    forall i: nat :: i < |log| ==> Fair(log[..i], log[i])
  }

  lemma OneMoreFair(log: seq<Entry>, e: Entry)
    requires AllFair(log) && Fair(log, e)
    ensures AllFair(log + [e])
  {
    var next := log + [e];
    hide Fair;
    forall i: nat | i < |next|
      ensures Fair(next[..i], next[i])
    {
      if i < |log| { assert next[..i] == log[..i]; } else { assert next[..i] == log; }
    }
  }

  lemma LastEntry(log: seq<Entry>, e: Entry)
    ensures StatusOf(log + [e]) ==
            match e case WasReset => RsReady
                    case Cycled(_, _, _, _, _, act) =>
                      match act case Boots => RsBoot case Tunes => RsTune case Runs => RsRun case Retunes => RsRetune
                                case _ => StatusOf(log)
    ensures e.Cycled? ==> PhaseOf(log + [e]) == if e.act == Stays || e.act == Runs then PhaseOf(log) else e.now
  {
    assert (log + [e])[..|log|] == log;
  }

  lemma {:induction false} PhaseIsNotAfter(log: seq<Entry>, now: nat)
    requires Earned.NotBefore(log, now) && Timed(StatusOf(log))
    ensures PhaseOf(log) <= now
  {
    var before, last := log[..|log| - 1], log[|log| - 1];
    if last.Cycled? && last.act == Stays { PhaseIsNotAfter(before, now); }
  }

  // ----- The invariant -----

  predicate Stands(log: seq<Entry>, rs: ResamplerStatus, phase: nat) {
    StatusOf(log) == rs && (Timed(rs) ==> PhaseOf(log) == phase)
  }

  /** The status and the phase, at every point of the host thread. */
  predicate Story(log: seq<Entry>, rs: ResamplerStatus, phase: nat, pc: HostPc) {
    match pc
    case SetBoot(now) => Stands(log, RsBoot, now)
    case SetTune(now) => Stands(log, RsTune, now)
    case RunEngine => Stands(log, RsRun, phase)
    case RunOwn => Stands(log, RsRun, phase)
    case SetRetune(now) => Stands(log, RsRetune, now)
    case _ => if Earned.Stamping(pc) then rs == RsRetune && Stands(log, rs, pc.k.now) else Stands(log, rs, phase)
  }

  ghost predicate Inv(h: HostThread) {
    AllFair(h.log) && Earned.Timely(h.log, h.pc) && Story(h.log, h.rs, h.phaseStart, h.pc)
  }

  lemma ElapsedIsWaited(log: seq<Entry>, now: nat)
    requires Earned.NotBefore(log, now) && Timed(StatusOf(log))
    ensures Elapsed(now, PhaseOf(log)) == now - PhaseOf(log)
  {
    PhaseIsNotAfter(log, now);
  }

  lemma DecideKeepsInv(h: HostThread, now: nat, xrun: bool, clamped: bool, decay: real)
    requires AllFair(h.log) && Earned.NotBefore(h.log, now) && Stands(h.log, h.rs, h.phaseStart)
    requires h.rs == RsBoot || h.rs == RsTune || h.rs == RsRetune || h.rs == RsRun
    ensures Inv(Decide(h, now, h.rs, xrun, clamped, decay))
  {
    var act := Earned.DecideEntry(h, now, h.rs, xrun, clamped, decay);
    var e := Cycled(now, xrun, clamped, h.dll.err, h.rs, act);
    if Timed(h.rs) { ElapsedIsWaited(h.log, now); }
    hide Decide, AllFair, Elapsed, Earned.NotBefore, StatusOf, PhaseOf;
    assert Fair(h.log, e);
    LastEntry(h.log, e);
    hide Fair;
    OneMoreFair(h.log, e);
  }

  lemma BootKeepsInv(h: HostThread, m: HostThread, now: nat, xrun: bool, decay: real)
    requires AllFair(h.log) && Stands(h.log, RsReady, h.phaseStart) && h.rs == RsReady
    requires m == h.(dll := m.dll)
    ensures Inv(WithFilter(Logged(m, now, xrun, false, Boots), 1.0, decay).(pc := SetBoot(now)))
  {
    var e := Cycled(now, xrun, false, m.dll.err, RsReady, Boots);
    LastEntry(h.log, e);
    assert Fair(h.log, e);
    hide AllFair, StatusOf, PhaseOf, Fair, HostSetLoopFilter;
    OneMoreFair(h.log, e);
  }

  lemma CycleKeepsInv(h: HostThread, line: Overbridge, now: nat, xrun: bool, es: EngineStatus, x: Input)
    requires Inv(h) && h.pc == Load(now, xrun, es, h.rs) && (h.rs == RsReady ==> es == EsWait)
    requires h.rs != RsError && h.rs != RsStop
    ensures Inv(Cycle(h, line, now, xrun, es, h.rs, x))
  {
    var m := Measured(h, line, now, x.undefined);
    assert m == h.(dll := m.dll);
    hide Measured, HostUpdate, HostClamps, AllFair, Stands;
    if h.rs == RsReady {
      BootKeepsInv(h, m, now, xrun, x.decay);
      hide Inv, WithFilter, Logged;
    } else {
      var r := WithRatios(m.(dll := HostUpdate(m.dll)));
      assert r == h.(dll := r.dll, h2oRatio := r.h2oRatio);
      DecideKeepsInv(r, now, xrun, HostClamps(m.dll), x.decay);
      hide Decide, Inv;
    }
  }

  lemma SamplingKeepsInv(sh: Shared, h: HostThread, x: Input)
    requires Inv(h) && (h.pc.SampleEngine? || h.pc.SampleOwn? || h.pc.NotifySteady?)
    ensures Inv(ComputeStep(sh, h, x).1)
  {
    hide Cycle, AllFair, Stands, Earned.NotBefore, Guarded, Level;
  }

  lemma SettingKeepsInv(sh: Shared, h: HostThread, x: Input)
    requires Inv(h) && (h.pc.SetBoot? || h.pc.SetTune? || h.pc.RunEngine? || h.pc.RunOwn? || h.pc.SetRetune?)
    ensures Inv(ComputeStep(sh, h, x).1)
  {
    hide Cycle, AllFair, StatusOf, PhaseOf, Guarded;
  }

  lemma ComputeKeepsInv(sh: Shared, h: HostThread, x: Input, epc: EnginePc)
    requires Inv(h) && Computing(h.pc) && Protocol.HostInv(sh.status, h.rs, h.pc, epc)
    ensures Inv(ComputeStep(sh, h, x).1)
  {
    if h.pc.Load? {
      assert h.pc.rs == h.rs && (h.rs == RsReady ==> h.pc.es == EsWait) && h.rs != RsError && h.rs != RsStop;
      CycleKeepsInv(h, sh.line, h.pc.now, h.pc.xrun, h.pc.es, x);
      hide Cycle, Inv;
    } else {
      if h.pc.SampleEngine? || h.pc.SampleOwn? || h.pc.NotifySteady? { SamplingKeepsInv(sh, h, x); }
      else { SettingKeepsInv(sh, h, x); }
      hide ComputeStep, Inv, Protocol.HostInv;
    }
  }

  lemma DroppingKeepsInv(c: Config, sh: Shared, h: HostThread, x: Input)
    requires ValidConfig(c) && Inv(h) && (h.pc.DropSpace? || h.pc.Drop? || h.pc.AskClear?)
    ensures Inv(ClearStep(c, sh, h, x).1)
  {
    hide AllFair, StatusOf, PhaseOf, Ring.Discard, Ring.FrameBytes, ClearRequested;
  }

  lemma ResettingKeepsInv(c: Config, sh: Shared, h: HostThread, x: Input)
    requires ValidConfig(c) && Inv(h) && (h.pc.ResetSample? || h.pc.ResetInit? || h.pc.ResetEngine? || h.pc.ResetOwn?)
    ensures Inv(ClearStep(c, sh, h, x).1)
  {
    hide AllFair, StatusOf, PhaseOf, HostReset, HostInit, Guarded, Level, Cycle;
    if h.pc.ResetOwn? {
      LastEntry(h.log, WasReset);
      OneMoreFair(h.log, WasReset);
      assert ClearStep(c, sh, h, x).1 == h.(pc := DropSpace(Return), rs := RsReady, log := h.log + [WasReset]);
      hide ClearStep;
    } else {
      var n := ClearStep(c, sh, h, x).1;
      assert n.log == h.log && n.rs == h.rs && n.phaseStart == h.phaseStart && Clearing(n.pc) && !Earned.Stamping(n.pc);
      hide ClearStep;
    }
  }

  lemma ClearKeepsInv(c: Config, sh: Shared, h: HostThread, x: Input)
    requires ValidConfig(c) && Inv(h) && Clearing(h.pc)
    ensures Inv(ClearStep(c, sh, h, x).1)
  {
    if h.pc.DropSpace? || h.pc.Drop? || h.pc.AskClear? { DroppingKeepsInv(c, sh, h, x); }
    else { ResettingKeepsInv(c, sh, h, x); }
    hide ClearStep, Inv;
  }

  lemma AudioKeepsInv(c: Config, sh: Shared, h: HostThread, x: Input)
    requires ValidConfig(c) && Inv(h) && Protocol.Quiet(h.pc) && !h.pc.Idle?
    ensures Inv(AudioStep(c, sh, h, x).1)
  {
    hide AllFair, StatusOf, PhaseOf, Ring.Discard, Ring.FrameBytes, Ring.Read, Ring.Write, Ring.Min, CountFrames,
         Requests.Requested, Requests.Charged;
  }

  lemma BeginKeepsInv(h: HostThread, call: Call)
    requires Inv(h) && h.pc.Idle? && (call.Compute? ==> Earned.NotBefore(h.log, call.now))
    ensures Inv(Begin(h, call))
  {
    hide AllFair, StatusOf, PhaseOf, Earned.NotBefore;
  }

  lemma HostKeepsInv(c: Config, sh: Shared, h: HostThread, x: Input, epc: EnginePc)
    requires ValidConfig(c) && Inv(h) && Protocol.HostInv(sh.status, h.rs, h.pc, epc)
    requires Earned.Punctual(h, HostMoves(x))
    ensures Inv(HostStep(c, sh, h, x).1)
  {
    if h.pc.Idle? { BeginKeepsInv(h, x.call); }
    else if Computing(h.pc) { ComputeKeepsInv(sh, h, x, epc); }
    else if Clearing(h.pc) { ClearKeepsInv(c, sh, h, x); }
    else { AudioKeepsInv(c, sh, h, x); }
    hide Begin, ComputeStep, ClearStep, AudioStep, Inv;
  }

  lemma {:induction false} RunKeepsInv(c: Config, w: World, events: seq<Event>)
    requires ValidConfig(c) && c.dll && Initial(c, w) && ValidEvents(c, events) && Earned.PunctualRun(c, w, events)
    ensures Inv(Run(c, w, events).h)
  {
    if events != [] {
      RunKeepsInv(c, w, events[..|events| - 1]);
      Protocol.RunKeepsInv(c, w, events[..|events| - 1]);
      var before, ev := Run(c, w, events[..|events| - 1]), events[|events| - 1];
      hide EngineStep, HostStep, Inv, Protocol.HostInv;
      if ev.HostMoves? { HostKeepsInv(c, before.sh, before.h, ev.x, before.e.pc); }
    }
  }

  /** In every run every cycle did exactly what its history and its inputs demand, and between two calls the status
      and the start of the phase are what the history says. */
  lemma HistoryDetermines(c: Config, w: World, events: seq<Event>)
    requires ValidConfig(c) && c.dll && Initial(c, w) && ValidEvents(c, events) && Earned.PunctualRun(c, w, events)
    ensures var h := Run(c, w, events).h;
            && AllFair(h.log)
            && (h.pc.Idle? ==> h.rs == StatusOf(h.log) && (Timed(h.rs) ==> h.phaseStart == PhaseOf(h.log)))
  {
    RunKeepsInv(c, w, events);
    hide Run, AllFair;
  }

  /** In particular no xrun and no clamp goes unanswered while the resampler runs: it tunes anew, from that cycle's
      time on. */
  lemma NoXrunIsMissed(c: Config, w: World, events: seq<Event>, i: nat)
    requires ValidConfig(c) && c.dll && Initial(c, w) && ValidEvents(c, events) && Earned.PunctualRun(c, w, events)
    requires var log := Run(c, w, events).h.log;
             i < |log| && log[i].Cycled? && log[i].before == RsRun && (log[i].xrun || log[i].clamped)
    ensures var h := Run(c, w, events).h;
            && h.log[i].act == Retunes
            && (h.pc.Idle? && i == |h.log| - 1 ==> h.rs == RsRetune && h.phaseStart == h.log[i].now)
  {
    HistoryDetermines(c, w, events);
    hide Run, Initial, Earned.PunctualRun, ValidEvents;
    assert Fair(Run(c, w, events).h.log[..i], Run(c, w, events).h.log[i]);
  }
}
