/** Every entry of the resampler to its running status is earned: the history of the cycles shows the
    four quiet seconds that led to it, and, after a reset, the three seconds of booting before them. */
module Earned {
  import opened Status
  import opened Dll
  import opened Machine
  import opened Ring
  import Requests
  import Protocol

  // ----- Histories -----

  predicate Did(e: Entry, act: Act) {
    e.Cycled? && e.act == act
  }

  /** A cycle that changed nothing. */
  predicate Stay(e: Entry) {
    Did(e, Stays)
  }

  /** A cycle that changed nothing, without xrun and without clamping the ratio. */
  predicate Clean(e: Entry) {
    Stay(e) && !e.xrun && !e.clamped
  }

  /** A cycle that set phase_start_usecs for the tuning period. */
  predicate StartsTuning(e: Entry) {
    Did(e, Tunes) || Did(e, Restarts) || Did(e, Retunes)
  }

  /** Since entry p, which began at `phase`, all cycles were clean. */
  predicate CleanSince(log: seq<Entry>, p: nat, phase: nat) {
    && p < |log| && StartsTuning(log[p]) && log[p].now == phase
    && forall k :: p < k < |log| ==> Clean(log[k])
  }

  predicate BootedSince(log: seq<Entry>, b: nat, phase: nat) {
    && b < |log| && Did(log[b], Boots) && log[b].now == phase
    && forall k :: b < k < |log| ==> Stay(log[k])
  }

  /** The resampler booted at b, stayed so for more than three seconds, and began to tune at m. */
  predicate BootThenTune(log: seq<Entry>, b: nat, m: nat) {
    && b < m < |log| && Did(log[b], Boots) && Did(log[m], Tunes)
    && log[m].now - log[b].now > BOOTING_PERIOD_US
    && forall k :: b < k < m ==> Stay(log[k])
  }

  predicate NoResetAfter(log: seq<Entry>, r: nat) {
    forall k :: r < k < |log| ==> !log[k].WasReset?
  }

  /** The resampler has tuned since it booted. */
  predicate TuningSince(log: seq<Entry>, b: nat, m: nat) {
    && BootThenTune(log, b, m)
    && forall k :: m < k < |log| ==> Stay(log[k]) || Did(log[k], Restarts)
  }

  /** The resampler has run since its last reset. */
  predicate RanAt(log: seq<Entry>, r: nat) {
    r < |log| && Did(log[r], Runs) && NoResetAfter(log, r)
  }

  /** Entry i to the running status is earned by the tuning period that began at j. */
  predicate EarnedFrom(log: seq<Entry>, i: nat, j: nat) {
    && j < i < |log| && StartsTuning(log[j])
    && log[i].Cycled? && log[i].now - log[j].now > TUNING_PERIOD_US
    && !log[i].xrun && !log[i].clamped && -1.0 < log[i].err < 1.0
    && forall k :: j < k < i ==> Clean(log[k])
  }

  /** There was a run before i since the last reset, or the three seconds of booting. */
  ghost predicate Rooted(log: seq<Entry>, i: nat) {
    || (exists r: nat :: r < i <= |log| && RanAt(log[..i], r))
    || (exists b: nat, m: nat :: m < i <= |log| && TuningSince(log[..i], b, m))
  }

  ghost predicate Earned(log: seq<Entry>, i: nat) {
    (exists j: nat :: EarnedFrom(log, i, j)) && Rooted(log, i)
  }

  ghost predicate AllEarned(log: seq<Entry>) {
    forall i: nat :: i < |log| && Did(log[i], Runs) ==> Earned(log, i)
  }

  /** No cycle before `now`, which is a 64-bit time. */
  predicate NotBefore(log: seq<Entry>, now: nat) {
    now < TWO64 && forall k :: 0 <= k < |log| && log[k].Cycled? ==> log[k].now <= now
  }

  // ----- The invariant -----

  predicate LastDid(log: seq<Entry>, act: Act, now: nat) {
    |log| > 0 && Did(log[|log| - 1], act) && log[|log| - 1].now == now
  }

  /** The time of the cycle being handled. */
  predicate Timely(log: seq<Entry>, pc: HostPc) {
    match pc
    case SampleEngine(now, _) => NotBefore(log, now)
    case SampleOwn(now, _, _) => NotBefore(log, now)
    case Load(now, _, _, _) => NotBefore(log, now)
    case _ => true
  }

  predicate Stamping(pc: HostPc) {
    (pc.DropSpace? || pc.Drop? || pc.AskClear?) && pc.k.StampPhase?
  }

  ghost predicate IsBooting(log: seq<Entry>, phase: nat) {
    exists b: nat :: BootedSince(log, b, phase)
  }

  ghost predicate IsTuning(log: seq<Entry>) {
    exists b: nat, m: nat :: TuningSince(log, b, m)
  }

  predicate JustRan(log: seq<Entry>) {
    |log| > 0 && Did(log[|log| - 1], Runs)
  }

  ghost predicate HasRun(log: seq<Entry>) {
    exists r: nat :: RanAt(log, r)
  }

  ghost predicate IsQuiet(log: seq<Entry>, phase: nat) {
    exists p: nat :: CleanSince(log, p, phase)
  }

  /** What the history says, at every point of the host thread and for every status. */
  ghost predicate Story(log: seq<Entry>, rs: ResamplerStatus, phase: nat, pc: HostPc) {
    match pc
    case SetBoot(now) => LastDid(log, Boots, now)
    case SetTune(now) => LastDid(log, Tunes, now) && IsTuning(log)
    case RunEngine => JustRan(log)
    case RunOwn => JustRan(log)
    case SetRetune(now) => LastDid(log, Retunes, now) && HasRun(log)
    case _ =>
      if Stamping(pc) then LastDid(log, Retunes, pc.k.now) && HasRun(log)
      else
        match rs
        case RsBoot => IsBooting(log, phase)
        case RsTune => IsTuning(log) && IsQuiet(log, phase)
        case RsRetune => HasRun(log) && IsQuiet(log, phase)
        case RsRun => HasRun(log)
        case _ => true
  }

  ghost predicate Inv(h: HostThread) {
    && AllEarned(h.log)
    && Timely(h.log, h.pc)
    && Story(h.log, h.rs, h.phaseStart, h.pc)
    && (Stamping(h.pc) ==> h.rs == RsRetune)
  }

  // ----- One more entry -----

  lemma AppendKeepsEarned(log: seq<Entry>, e: Entry)
    requires AllEarned(log)
    requires Did(e, Runs) ==> Earned(log + [e], |log|)
    ensures AllEarned(log + [e])
  {
    var next := log + [e];
    forall i: nat | i < |next| && Did(next[i], Runs)
      ensures Earned(next, i)
    {
      if i < |log| {
        assert Earned(log, i);
        var j: nat :| EarnedFrom(log, i, j);
        assert EarnedFrom(next, i, j);
        assert next[..i] == log[..i];
      }
    }
  }

  lemma StayKeepsBooting(log: seq<Entry>, e: Entry, phase: nat)
    requires IsBooting(log, phase) && Stay(e)
    ensures IsBooting(log + [e], phase)
  {
    var b: nat :| BootedSince(log, b, phase);
    assert BootedSince(log + [e], b, phase);
  }

  lemma StayKeepsTuning(log: seq<Entry>, e: Entry)
    requires IsTuning(log) && (Stay(e) || Did(e, Restarts))
    ensures IsTuning(log + [e])
  {
    var b: nat, m: nat :| TuningSince(log, b, m);
    assert TuningSince(log + [e], b, m);
  }

  lemma CycleKeepsRun(log: seq<Entry>, e: Entry)
    requires HasRun(log) && e.Cycled?
    ensures HasRun(log + [e])
  {
    var r: nat :| RanAt(log, r);
    assert RanAt(log + [e], r);
  }

  lemma CleanKeepsQuiet(log: seq<Entry>, e: Entry, phase: nat)
    requires IsQuiet(log, phase) && Clean(e)
    ensures IsQuiet(log + [e], phase)
  {
    var p: nat :| CleanSince(log, p, phase);
    assert CleanSince(log + [e], p, phase);
  }

  lemma StartIsQuiet(log: seq<Entry>, phase: nat)
    requires |log| > 0 && StartsTuning(log[|log| - 1]) && log[|log| - 1].now == phase
    ensures IsQuiet(log, phase)
  {
    assert CleanSince(log, |log| - 1, phase);
  }

  /** Three seconds after booting, an entry that begins to tune. */
  lemma TuneFollowsBoot(log: seq<Entry>, e: Entry, phase: nat)
    requires IsBooting(log, phase) && Did(e, Tunes) && e.now - phase > BOOTING_PERIOD_US
    ensures IsTuning(log + [e])
  {
    var b: nat :| BootedSince(log, b, phase);
    assert BootThenTune(log + [e], b, |log|);
    assert TuningSince(log + [e], b, |log|);
  }

  /** Four quiet seconds after the tuning period began, an entry that runs. */
  lemma RunIsEarned(log: seq<Entry>, e: Entry, phase: nat)
    requires IsQuiet(log, phase) && (IsTuning(log) || HasRun(log))
    requires Did(e, Runs) && !e.xrun && !e.clamped && -1.0 < e.err < 1.0 && e.now - phase > TUNING_PERIOD_US
    ensures Earned(log + [e], |log|)
  {
    var p: nat :| CleanSince(log, p, phase);
    var next := log + [e];
    assert EarnedFrom(next, |log|, p);
    assert next[..|log|] == log;
    if IsTuning(log) {
      var b: nat, m: nat :| TuningSince(log, b, m);
      assert m < |log| <= |next| && TuningSince(next[..|log|], b, m);
    } else {
      var r: nat :| RanAt(log, r);
      assert r < |log| <= |next| && RanAt(next[..|log|], r);
    }
  }

  lemma RunHasRun(log: seq<Entry>, e: Entry)
    requires Did(e, Runs)
    ensures HasRun(log + [e]) && JustRan(log + [e])
  {
    assert RanAt(log + [e], |log|);
  }

  // ----- The steps of the host -----

  lemma ElapsedIsDifference(log: seq<Entry>, phase: nat, now: nat)
    requires NotBefore(log, now)
    requires IsBooting(log, phase) || IsQuiet(log, phase)
    ensures Elapsed(now, phase) == now - phase
  {
    if IsBooting(log, phase) {
      var b: nat :| BootedSince(log, b, phase);
      assert log[b].now <= now;
    } else {
      var p: nat :| CleanSince(log, p, phase);
      assert log[p].now <= now;
    }
  }

  /** The error is less than a frame. */
  predicate Near(err: real) {
    -1.0 < err < 1.0
  }

  /** The entry that Decide adds, and what it does besides: each act exactly under its condition. */
  lemma DecideEntry(h: HostThread, now: nat, rs: ResamplerStatus, xrun: bool, clamped: bool, decay: real)
    returns (act: Act)
    ensures var d := Decide(h, now, rs, xrun, clamped, decay);
            && d.log == h.log + [Cycled(now, xrun, clamped, h.dll.err, h.rs, act)] && d.rs == h.rs
            && d.phaseStart == (if act == Restarts then now else h.phaseStart)
            && d.pc == (match act case Tunes => SetTune(now) case Runs => RunEngine case Retunes => SetRetune(now)
                                  case _ => Idle)
    ensures act != Boots
    ensures act == Tunes <==> rs == RsBoot && Elapsed(now, h.phaseStart) > BOOTING_PERIOD_US && Near(h.dll.err)
    ensures act == Restarts <==> (rs == RsTune || rs == RsRetune) && (xrun || clamped)
    ensures act == Runs <==> (rs == RsTune || rs == RsRetune) && !xrun && !clamped
                             && Elapsed(now, h.phaseStart) > TUNING_PERIOD_US && Near(h.dll.err)
    ensures act == Retunes <==> rs == RsRun && (xrun || clamped)
  {
    TunedMeansBelowOneFrame(h.dll, BOOTING_ERROR);
    TunedMeansBelowOneFrame(h.dll, TUNING_ERROR);
    hide HostSetLoopFilter, Elapsed, Tuned;
    var d := Decide(h, now, rs, xrun, clamped, decay);
    act := d.log[|h.log|].act;
  }

  lemma DecideKeepsInv(h: HostThread, now: nat, rs: ResamplerStatus, xrun: bool, clamped: bool, decay: real)
    requires AllEarned(h.log) && NotBefore(h.log, now) && rs == h.rs
    requires Story(h.log, rs, h.phaseStart, Idle)
    ensures Inv(Decide(h, now, rs, xrun, clamped, decay))
  {
    var act := DecideEntry(h, now, rs, xrun, clamped, decay);
    var e := Cycled(now, xrun, clamped, h.dll.err, h.rs, act);
    hide Decide, AllEarned, Elapsed, NotBefore, IsBooting, IsTuning, IsQuiet, HasRun, Earned;
    match act {
      case Tunes =>
        ElapsedIsDifference(h.log, h.phaseStart, now);
        TuneFollowsBoot(h.log, e, h.phaseStart);
      case Restarts =>
        if rs == RsTune { StayKeepsTuning(h.log, e); } else { CycleKeepsRun(h.log, e); }
        StartIsQuiet(h.log + [e], now);
      case Runs =>
        ElapsedIsDifference(h.log, h.phaseStart, now);
        RunIsEarned(h.log, e, h.phaseStart);
        RunHasRun(h.log, e);
      case Retunes =>
        CycleKeepsRun(h.log, e);
      case Stays =>
        match rs {
          case RsBoot => StayKeepsBooting(h.log, e, h.phaseStart);
          case RsTune => StayKeepsTuning(h.log, e); CleanKeepsQuiet(h.log, e, h.phaseStart);
          case RsRetune => CycleKeepsRun(h.log, e); CleanKeepsQuiet(h.log, e, h.phaseStart);
          case RsRun => CycleKeepsRun(h.log, e);
          case _ =>
        }
      case Boots =>
    }
    AppendKeepsEarned(h.log, e);
  }

  lemma CycleKeepsInv(h: HostThread, line: Overbridge, now: nat, xrun: bool, es: EngineStatus, rs: ResamplerStatus,
                      x: Input)
    requires Inv(h) && h.pc == Load(now, xrun, es, rs) && rs == h.rs
    ensures Inv(Cycle(h, line, now, xrun, es, rs, x))
  {
    var m := Measured(h, line, now, x.undefined);
    assert m == h.(dll := m.dll);
    hide Measured, HostUpdate, HostClamps, HostSetLoopFilter;
    if rs == RsReady && es == EsWait {
      AppendKeepsEarned(h.log, Cycled(now, xrun, false, m.dll.err, h.rs, Boots));
      hide AllEarned;
    } else {
      var r := WithRatios(m.(dll := HostUpdate(m.dll)));
      assert r == h.(dll := r.dll, h2oRatio := r.h2oRatio);
      DecideKeepsInv(r, now, rs, xrun, HostClamps(m.dll), x.decay);
      hide Decide, Inv;
    }
  }

  lemma SamplingKeepsInv(sh: Shared, h: HostThread, x: Input)
    requires Inv(h) && (h.pc.SampleEngine? || h.pc.SampleOwn? || h.pc.NotifySteady?)
    ensures Inv(ComputeStep(sh, h, x).1)
  {
    hide Cycle, AllEarned, IsBooting, IsTuning, IsQuiet, HasRun, NotBefore, Status.Level;
  }

  lemma BootIsFresh(log: seq<Entry>, now: nat)
    requires LastDid(log, Boots, now)
    ensures IsBooting(log, now)
  {
    assert BootedSince(log, |log| - 1, now);
  }

  lemma JustRanHasRun(log: seq<Entry>)
    requires JustRan(log)
    ensures HasRun(log)
  {
    assert RanAt(log, |log| - 1);
  }

  lemma PhaseKeepsInv(sh: Shared, h: HostThread, x: Input)
    requires Inv(h) && (h.pc.SetBoot? || h.pc.SetTune?)
    ensures Inv(ComputeStep(sh, h, x).1)
  {
    if h.pc.SetBoot? { BootIsFresh(h.log, h.pc.now); } else { StartIsQuiet(h.log, h.pc.now); }
    hide Cycle, AllEarned, IsBooting, IsTuning, IsQuiet, HasRun, NotBefore, LastDid;
  }

  lemma RunningKeepsInv(sh: Shared, h: HostThread, x: Input)
    requires Inv(h) && (h.pc.RunEngine? || h.pc.RunOwn? || h.pc.SetRetune?)
    ensures Inv(ComputeStep(sh, h, x).1)
  {
    hide Cycle, AllEarned, IsBooting, IsTuning, IsQuiet, HasRun, JustRan, NotBefore, LastDid, Guarded;
    match h.pc {
      case RunEngine =>
        assert ComputeStep(sh, h, x).1 == h.(pc := RunOwn);
      case RunOwn =>
        JustRanHasRun(h.log);
        assert ComputeStep(sh, h, x).1 == h.(pc := DropSpace(Return), rs := RsRun);
      case SetRetune(now) =>
        assert ComputeStep(sh, h, x).1 == h.(pc := DropSpace(StampPhase(now)), rs := RsRetune);
    }
  }

  lemma ComputeKeepsInv(sh: Shared, h: HostThread, x: Input, epc: EnginePc)
    requires Inv(h) && Computing(h.pc) && Protocol.HostInv(sh.status, h.rs, h.pc, epc)
    ensures Inv(ComputeStep(sh, h, x).1)
  {
    if h.pc.Load? {
      CycleKeepsInv(h, sh.line, h.pc.now, h.pc.xrun, h.pc.es, h.pc.rs, x);
      hide Cycle, Inv;
    } else if h.pc.SampleEngine? || h.pc.SampleOwn? || h.pc.NotifySteady? {
      SamplingKeepsInv(sh, h, x);
      hide ComputeStep, Inv;
    } else if h.pc.SetBoot? || h.pc.SetTune? {
      PhaseKeepsInv(sh, h, x);
      hide ComputeStep, Inv;
    } else {
      RunningKeepsInv(sh, h, x);
      hide ComputeStep, Inv;
    }
  }

  lemma ResettingKeepsInv(c: Config, sh: Shared, h: HostThread, x: Input)
    requires ValidConfig(c) && Inv(h) && (h.pc.ResetSample? || h.pc.ResetInit? || h.pc.ResetEngine? || h.pc.ResetOwn?)
    ensures Inv(ClearStep(c, sh, h, x).1)
  {
    if h.pc.ResetOwn? { AppendKeepsEarned(h.log, WasReset); }
    hide AllEarned, IsBooting, IsTuning, IsQuiet, HasRun, HostReset, HostInit, Guarded, Level;
  }

  lemma DroppingKeepsInv(c: Config, sh: Shared, h: HostThread, x: Input)
    requires ValidConfig(c) && Inv(h) && (h.pc.DropSpace? || h.pc.Drop? || h.pc.AskClear?)
    ensures Inv(ClearStep(c, sh, h, x).1)
  {
    if h.pc.AskClear? && h.pc.k.StampPhase? { StartIsQuiet(h.log, h.pc.k.now); }
    hide AllEarned, IsBooting, IsTuning, IsQuiet, HasRun, Discard, FrameBytes, ClearRequested;
  }

  lemma ClearKeepsInv(c: Config, sh: Shared, h: HostThread, x: Input)
    requires ValidConfig(c) && Inv(h) && Clearing(h.pc)
    ensures Inv(ClearStep(c, sh, h, x).1)
  {
    if h.pc.DropSpace? || h.pc.Drop? || h.pc.AskClear? { DroppingKeepsInv(c, sh, h, x); }
    else { ResettingKeepsInv(c, sh, h, x); }
    hide ClearStep, Inv;
  }

  lemma AudioKeepsInv(c: Config, sh: Shared, h: HostThread, x: Input)
    requires ValidConfig(c) && Inv(h) && Protocol.Quiet(h.pc) && !h.pc.Idle?
    ensures Inv(AudioStep(c, sh, h, x).1)
  {
    hide AllEarned, IsBooting, IsTuning, IsQuiet, HasRun, Discard, FrameBytes, Read, Write, Min,
         CountFrames, Requests.Requested, Requests.Charged;
  }

  /** JACK's cycle times do not go backwards. */
  predicate Punctual(h: HostThread, ev: Event) {
    ev.HostMoves? && h.pc.Idle? && ev.x.call.Compute? ==> NotBefore(h.log, ev.x.call.now)
  }

  lemma BeginKeepsInv(h: HostThread, call: Call)
    requires Inv(h) && h.pc.Idle? && (call.Compute? ==> NotBefore(h.log, call.now))
    ensures Inv(Begin(h, call))
  {
    hide AllEarned, IsBooting, IsTuning, IsQuiet, HasRun, NotBefore;
  }

  lemma HostKeepsInv(c: Config, sh: Shared, h: HostThread, x: Input, epc: EnginePc)
    requires ValidConfig(c) && Inv(h) && Protocol.HostInv(sh.status, h.rs, h.pc, epc) && Punctual(h, HostMoves(x))
    ensures Inv(HostStep(c, sh, h, x).1)
  {
    if h.pc.Idle? { BeginKeepsInv(h, x.call); }
    else if Computing(h.pc) { ComputeKeepsInv(sh, h, x, epc); }
    else if Clearing(h.pc) { ClearKeepsInv(c, sh, h, x); }
    else { AudioKeepsInv(c, sh, h, x); }
    hide Begin, ComputeStep, ClearStep, AudioStep, Inv;
  }

  // ----- Runs -----

  predicate PunctualRun(c: Config, w: World, events: seq<Event>)
    requires ValidConfig(c)
  {
    events == [] ||
    (var before, ev := events[..|events| - 1], events[|events| - 1];
     PunctualRun(c, w, before) && Punctual(Run(c, w, before).h, ev))
  }

  lemma {:induction false} RunKeepsInv(c: Config, w: World, events: seq<Event>)
    requires ValidConfig(c) && c.dll && Initial(c, w) && ValidEvents(c, events) && PunctualRun(c, w, events)
    ensures Inv(Run(c, w, events).h)
  {
    if events != [] {
      RunKeepsInv(c, w, events[..|events| - 1]);
      Protocol.RunKeepsInv(c, w, events[..|events| - 1]);
      var before, ev := Run(c, w, events[..|events| - 1]), events[|events| - 1];
      hide EngineStep, HostStep, Inv, Protocol.HostInv;
      if ev.HostMoves? { HostKeepsInv(c, before.sh, before.h, ev.x, before.e.pc); }
    }
  }

  /** Every entry to RUN in the history is earned: more than four seconds after phase_start, with no xrun
      and no clamp in any later cycle and less than one frame of error; and it follows an earlier run since
      the last reset, or more than three seconds of booting. */
  lemma EveryRunIsEarned(c: Config, w: World, events: seq<Event>)
    requires ValidConfig(c) && c.dll && Initial(c, w) && ValidEvents(c, events) && PunctualRun(c, w, events)
    ensures AllEarned(Run(c, w, events).h.log)
  {
    RunKeepsInv(c, w, events);
  }

  lemma OnlyRunOwnRuns(c: Config, sh: Shared, h: HostThread, x: Input)
    requires ValidConfig(c) && !h.pc.RunOwn? && h.rs != RsRun
    ensures HostStep(c, sh, h, x).1.rs != RsRun
  {
    hide Cycle, FrameBytes, Read, Write, Discard, Requests.Requested, Requests.Charged;
    if h.pc.Load? { Protocol.CycleTarget(h, sh.line, h.pc.now, h.pc.xrun, h.pc.es, h.pc.rs, x); }
    if h.pc.Idle? { hide ComputeStep, ClearStep, AudioStep; }
    else if Computing(h.pc) { hide Begin, ClearStep, AudioStep; }
    else if Clearing(h.pc) { hide Begin, ComputeStep, AudioStep; }
    else { hide Begin, ComputeStep, ClearStep; }
  }

  /** The history tells the whole story: the status only turns to RUN right after an entry that says so,
      and that entry is earned. */
  lemma RunOnlyByEntry(c: Config, w: World, events: seq<Event>, ev: Event)
    requires ValidConfig(c) && c.dll && Initial(c, w) && ValidEvents(c, events)
    requires PunctualRun(c, w, events)
    ensures var n := Run(c, w, events);
            n.h.rs != RsRun && Next(c, n, ev).h.rs == RsRun ==>
              JustRan(n.h.log) && Earned(n.h.log, |n.h.log| - 1)
  {
    hide Run, EngineStep, HostStep, Earned, Initial, ValidEvents, PunctualRun;
    RunKeepsInv(c, w, events);
    var n := Run(c, w, events);
    if ev.HostMoves? && n.h.rs != RsRun && !n.h.pc.RunOwn? { OnlyRunOwnRuns(c, n.sh, n.h, ev.x); }
  }
}
