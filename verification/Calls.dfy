/** What each call of JACK's thread does in all, in terms of what the thread saw at its own steps since the call
    began, whatever the engine did between them. */
module Calls {
  import opened Words
  import opened Status
  import opened Ring
  import opened Dll
  import opened Machine
  import opened Reals
  import Connected
  import Earned
  import HostLoop
  import Requests
  import Transport

  // ----- What the thread has seen -----

  /** The world before a step of the host's thread, and what JACK and the libraries decided in it. */
  datatype Look = Look(w: World, x: Input)

  /** The thread's own steps since the latest call, which is the first of them. */
  function Looks(c: Config, w: World, events: seq<Event>): seq<Look>
    requires ValidConfig(c)
  {
    if events == [] then []
    else
      var before, ev := events[..|events| - 1], events[|events| - 1];
      if ev.HostMoves? then More(Looks(c, w, before), Run(c, w, before), ev.x) else Looks(c, w, before)
  }

  function More(v: seq<Look>, n: World, x: Input): seq<Look> {
    if n.h.pc.Idle? then [Look(n, x)] else v + [Look(n, x)]
  }

  lemma Earlier(v: seq<Look>, n: World, x: Input)
    requires !n.h.pc.Idle?
    ensures var next := More(v, n, x);
            && |next| == |v| + 1 && next[|v|] == Look(n, x)
            && forall k :: 0 <= k < |v| ==> next[k] == v[k]
  {
  }

  // ----- A cycle -----

  /** The resampler is ready, and the engine has not booted: there is nothing to measure. */
  predicate TooEarly(v: seq<Look>) {
    |v| >= 2 && v[0].w.h.rs == RsReady && Level(v[1].w.sh.status) <= Level(EsBoot)
  }

  /** The cycle has measured, and the history has one more entry, which tells the truth: JACK's time, its xrun, the
      error, the status before, and whether the ratio had to be clamped. */
  predicate Entered(v: seq<Look>, h: HostThread)
    requires v != [] && v[0].x.call.Compute?
  {
    var was, log := v[0].w.h, h.log;
    && |v| >= 2 && !TooEarly(v) && |log| == |was.log| + 1 && log[..|was.log|] == was.log
    && log[|was.log|].Cycled?
    && var e := log[|was.log|];
       && e.now == v[0].x.call.now && e.xrun == v[0].x.call.xrun && e.before == was.rs && e.err == h.dll.err
       && (e.clamped <==> e.act != Boots && !(h.dll.minRatio <= HostLoop.Free(h.dll) <= h.dll.maxRatio))
       && (e.act == Boots <==> was.rs == RsReady && v[1].w.sh.status == EsWait)
  }

  // ----- Reading from the device -----

  /** A host that reads takes what waits, up to five whole frames, and makes up five if there is not one; one that
      does not read yet starts when a cycle waits, drops all whole cycles, and makes up five too. The frames it
      returns are counted. */
  predicate ReadDone(c: Config, v: seq<Look>, h: HostThread, taken: seq<byte>)
    requires ValidConfig(c) && |v| >= 2
  {
    var was, before, space := v[0].w.h, v[0].w.sh.o2h.taken, ReadSpace(v[1].w.sh.o2h);
    var gone, frame := |taken| - |before|, O2hFrame(c);
    && before <= taken
    && (h.reading <==> was.reading || (was.bufsize > 0 && was.bufsize * frame <= space))
    && (if was.reading then Whole(gone, frame) && gone <= space && gone <= MAX_READ_FRAMES * frame
                            && (space - gone < frame || gone == MAX_READ_FRAMES * frame)
        else if h.reading then Whole(gone, was.bufsize * frame) && gone <= space < gone + was.bufsize * frame
        else gone == 0)
    && h.dll.frames == U32(was.dll.frames + if was.reading && gone > 0 then gone / frame else MAX_READ_FRAMES)
  }

  // ----- Writing to the device -----

  /** So far everything speaks for writing the frames of a cycle: the resampler runs or retunes, the frames are as
      many as were requested, and then there is room for them. */
  predicate Promising(c: Config, v: seq<Look>, n: nat)
    requires ValidConfig(c) && n <= |v|
  {
    && (n >= 1 ==> v[0].w.h.pc.Idle? && v[0].x.call.WriteAudio?)
    && (n >= 2 ==> v[1].w.h.rs == RsRun || v[1].w.h.rs == RsRetune)
    && (n >= 3 ==> |v[2].x.data| == H2oFrame(c) * Requests.Requested(v[2].w.h.account.acc, v[2].w.h.bufsize,
                                                                   v[2].w.h.h2oRatio))
    && (n >= 4 ==> |v[2].x.data| <= WriteSpace(v[3].w.sh.h2o))
  }

  predicate Writable(c: Config, v: seq<Look>)
    requires ValidConfig(c)
  {
    |v| == 4 && Promising(c, v, 4)
  }

  /** The frames of all such cycles, in order; those that have been seen to fit are written in the next step. */
  function Written(c: Config, w: World, events: seq<Event>): seq<byte>
    requires ValidConfig(c)
  {
    if events == [] then []
    else
      var before, ev := events[..|events| - 1], events[|events| - 1];
      var v := Looks(c, w, before);
      Written(c, w, before) + if ev.HostMoves? && Writable(c, v) then v[2].x.data else []
  }

  // ----- Clearing -----

  /** Everything that waited when the thread looked has been dropped, and the host does not read any more. */
  predicate Dropped(v: seq<Look>, h: HostThread, taken: seq<byte>) {
    && |v| >= 2 && v[|v| - 2].w.h.pc.DropSpace? && !h.reading
    && var seen := v[|v| - 2].w.sh.o2h;
       seen.taken <= taken && |taken| == |seen.taken| + ReadSpace(seen)
  }

  // ----- Every point of the thread -----

  /** Nothing but the place has changed since the call began. */
  predicate Begun(v: seq<Look>, n: World, call: Call) {
    && |v| >= 1 && v[0].w.h.pc.Idle? && v[0].x.call == call
    && n.h == v[0].w.h.(pc := n.h.pc) && n.sh.o2h.taken == v[0].w.sh.o2h.taken
  }

  /** A call that resets. */
  predicate Resets(v: seq<Look>) {
    v != [] && (v[0].x.call.Reset? || v[0].x.call.Resize? || v[0].x.call.Resample?)
  }

  /** A call that clears, after its cycle if it is one, or before it resets. */
  predicate Told(v: seq<Look>, h: HostThread, k: After) {
    && v != [] && !v[0].x.call.ReadAudio? && !v[0].x.call.WriteAudio?
    && (v[0].x.call.Compute? ==> Entered(v, h))
    && (k.ThenReset? ==> Resets(v))
  }

  predicate Stands(c: Config, v: seq<Look>, n: World)
    requires ValidConfig(c)
  {
    var h, taken := n.h, n.sh.o2h.taken;
    match h.pc
    case Idle =>
      v == [] || (match v[0].x.call
                  case Compute(_, _) => (TooEarly(v) && n.h == v[0].w.h) || Entered(v, h)
                  case ReadAudio => |v| == 3 && ReadDone(c, v, h, taken)
                  case WriteAudio => |v| == 5 || !Promising(c, v, Min(|v|, 4))
                  case _ => true)
    case SampleEngine(now, xrun) => |v| == 1 && Begun(v, n, Compute(now, xrun))
    case SampleOwn(now, xrun, es) => |v| == 2 && Begun(v, n, Compute(now, xrun)) && es == v[1].w.sh.status
    case NotifySteady => |v| == 3 && v[0].x.call.Compute? && TooEarly(v) && Begun(v, n, v[0].x.call)
    case Load(now, xrun, es, rs) =>
      |v| == 3 && Begun(v, n, Compute(now, xrun)) && es == v[1].w.sh.status && rs == h.rs && !TooEarly(v)
    case ReaderSpace => |v| == 1 && Begun(v, n, ReadAudio)
    case ReaderTake(space) => |v| == 2 && Begun(v, n, ReadAudio) && space == ReadSpace(v[1].w.sh.o2h)
    case WriterSample => |v| == 1 && Promising(c, v, 1)
    case WriterRequest => |v| == 2 && Promising(c, v, 2)
    case WriterSpace(data) => |v| == 3 && Promising(c, v, 3) && data == v[2].x.data
    case WriterPut(space, data) =>
      |v| == 4 && Promising(c, v, 3) && data == v[2].x.data && space == WriteSpace(v[3].w.sh.h2o)
    case Drop(space, k) =>
      && Told(v, h, k) && v[|v| - 1].w.h.pc.DropSpace? && !h.reading
      && var seen := v[|v| - 1].w.sh.o2h;
         space == ReadSpace(seen) && Whole(space, O2hFrame(c)) && taken == seen.taken
    case AskClear(k) => Told(v, h, k) && Dropped(v, h, taken)
    case ResetInit(es) => Resets(v) && v[|v| - 1].w.h.pc.ResetSample? && es == v[|v| - 1].w.sh.status
    case ResetEngine(es) =>
      |v| >= 2 && Resets(v) && v[|v| - 2].w.h.pc.ResetSample? && es == v[|v| - 2].w.sh.status
    case ResetSample => Resets(v)
    case ResetOwn => Resets(v)
    case DropSpace(k) => Told(v, h, k)
    case _ => v != [] && v[0].x.call.Compute? && Entered(v, h)
  }

  // ----- One step -----

  lemma BeginStands(c: Config, n: World, x: Input)
    requires ValidConfig(c) && n.h.pc.Idle?
    ensures Stands(c, [Look(n, x)], Next(c, n, HostMoves(x)))
  {
    hide ReadDone, Entered, O2hFrame, H2oFrame;
  }

  /** The entry stays true as long as the history and the loop do. */
  lemma StillEntered(v: seq<Look>, n: World, x: Input, h: HostThread)
    requires v != [] && v[0].x.call.Compute? && Entered(v, n.h) && !n.h.pc.Idle?
    requires h.log == n.h.log && h.dll == n.h.dll
    ensures Entered(More(v, n, x), h)
  {
    Earlier(v, n, x);
    hide HostLoop.Free;
  }

  lemma SamplingStands(c: Config, v: seq<Look>, n: World, x: Input)
    requires ValidConfig(c) && Stands(c, v, n) && (n.h.pc.SampleEngine? || n.h.pc.SampleOwn? || n.h.pc.NotifySteady?)
    ensures Stands(c, More(v, n, x), Next(c, n, HostMoves(x)))
  {
    Earlier(v, n, x);
    hide Cycle, ReadDone, Entered, O2hFrame, H2oFrame, More;
  }

  lemma DecideKeepsLoop(h: HostThread, now: nat, rs: ResamplerStatus, xrun: bool, clamped: bool, decay: real)
    ensures var d := Decide(h, now, rs, xrun, clamped, decay).dll; d == h.dll.(w0 := d.w0, w1 := d.w1, w2 := d.w2)
  {
    Connected.DecideDll(h, now, rs, xrun, clamped, decay);
    hide Decide;
  }

  /** What a cycle enters. */
  lemma DecideEnters(h: HostThread, now: nat, rs: ResamplerStatus, xrun: bool, clamped: bool, decay: real)
    ensures var d := Decide(h, now, rs, xrun, clamped, decay);
            && d.rs == h.rs && |d.log| == |h.log| + 1 && d.log[..|h.log|] == h.log
            && d.log[|h.log|] == Cycled(now, xrun, clamped, h.dll.err, h.rs, d.log[|h.log|].act)
            && d.log[|h.log|].act != Boots
            && d.dll == h.dll.(w0 := d.dll.w0, w1 := d.dll.w1, w2 := d.dll.w2)
            && (d.pc.Idle? || d.pc.SetTune? || d.pc.RunEngine? || d.pc.SetRetune?)
  {
    DecideKeepsLoop(h, now, rs, xrun, clamped, decay);
    var act := Earned.DecideEntry(h, now, rs, xrun, clamped, decay);
    hide Decide, Elapsed, Earned.Near;
  }

  /** The clamp is reported exactly when the filter's own ratio was outside. */
  lemma ClampIsTrue(h: Host)
    ensures var n := HostUpdate(h);
            && (HostClamps(h) <==> !(n.minRatio <= HostLoop.Free(n) <= n.maxRatio))
            && n.err == h.err
  {
    hide Toward, Product;
  }

  lemma CycleEnters(h: HostThread, line: Overbridge, now: nat, xrun: bool, es: EngineStatus, rs: ResamplerStatus,
                    x: Input)
    ensures var d := Cycle(h, line, now, xrun, es, rs, x);
            && |d.log| == |h.log| + 1 && d.log[..|h.log|] == h.log && d.log[|h.log|].Cycled?
            && var e := d.log[|h.log|];
               && e.now == now && e.xrun == xrun && e.before == h.rs && e.err == d.dll.err
               && (e.clamped <==> e.act != Boots && !(d.dll.minRatio <= HostLoop.Free(d.dll) <= d.dll.maxRatio))
               && (e.act == Boots <==> rs == RsReady && es == EsWait)
               && (d.pc.Idle? || d.pc.SetBoot? || d.pc.SetTune? || d.pc.RunEngine? || d.pc.SetRetune?)
  {
    var m := Measured(h, line, now, x.undefined);
    assert m == h.(dll := m.dll);
    hide Measured, HostUpdate, HostClamps;
    if !(rs == RsReady && es == EsWait) {
      ClampIsTrue(m.dll);
      var r := WithRatios(m.(dll := HostUpdate(m.dll)));
      DecideEnters(r, now, rs, xrun, HostClamps(m.dll), x.decay);
      hide Decide;
    }
  }

  lemma EnteredStands(c: Config, v: seq<Look>, m: World)
    requires ValidConfig(c) && v != [] && v[0].x.call.Compute? && Entered(v, m.h)
    requires m.h.pc.Idle? || m.h.pc.SetBoot? || m.h.pc.SetTune? || m.h.pc.RunEngine? || m.h.pc.SetRetune?
    ensures Stands(c, v, m)
  {
    hide Entered;
  }

  lemma LoadEnters(c: Config, v: seq<Look>, n: World, x: Input)
    requires ValidConfig(c) && Stands(c, v, n) && n.h.pc.Load?
    ensures var d := Cycle(n.h, n.sh.line, n.h.pc.now, n.h.pc.xrun, n.h.pc.es, n.h.pc.rs, x);
            && v != [] && v[0].x.call.Compute? && Entered(More(v, n, x), d)
            && (d.pc.Idle? || d.pc.SetBoot? || d.pc.SetTune? || d.pc.RunEngine? || d.pc.SetRetune?)
  {
    Earlier(v, n, x);
    CycleEnters(n.h, n.sh.line, n.h.pc.now, n.h.pc.xrun, n.h.pc.es, n.h.pc.rs, x);
    hide Cycle, HostLoop.Free, More;
    assert More(v, n, x)[0] == v[0] && More(v, n, x)[1] == v[1];
  }

  lemma LoadStands(c: Config, v: seq<Look>, n: World, x: Input)
    requires ValidConfig(c) && Stands(c, v, n) && n.h.pc.Load?
    ensures Stands(c, More(v, n, x), Next(c, n, HostMoves(x)))
  {
    LoadEnters(c, v, n, x);
    hide Stands, Cycle, Entered;
    var m := Next(c, n, HostMoves(x));
    assert m.h == Cycle(n.h, n.sh.line, n.h.pc.now, n.h.pc.xrun, n.h.pc.es, n.h.pc.rs, x) && More(v, n, x)[0] == v[0];
    hide Next, More;
    EnteredStands(c, More(v, n, x), m);
  }

  /** The changes of phase after a cycle. */
  lemma SettingStands(c: Config, v: seq<Look>, n: World, x: Input)
    requires ValidConfig(c) && Stands(c, v, n)
    requires n.h.pc.SetBoot? || n.h.pc.SetTune? || n.h.pc.RunEngine? || n.h.pc.RunOwn? || n.h.pc.SetRetune?
    ensures Stands(c, More(v, n, x), Next(c, n, HostMoves(x)))
  {
    Earlier(v, n, x);
    var m := Next(c, n, HostMoves(x));
    assert m.h.log == n.h.log && m.h.dll == n.h.dll by { hide Cycle; }
    StillEntered(v, n, x, m.h);
    hide Cycle, More, Entered, ReadDone, O2hFrame, H2oFrame, TooEarly;
  }

  lemma AllWaitingIsWhole(c: Config, n: World)
    requires ValidConfig(c) && Transport.Inv(c, n)
    ensures Whole(ReadSpace(n.sh.o2h), O2hFrame(c))
  {
    Transport.RingsAreWhole(c, n);
  }

  lemma DropTakesAll(r: Ring, space: nat, frame: nat)
    requires frame > 0 && Whole(space, frame) && space <= ReadSpace(r)
    ensures var d := Discard(r, FrameBytes(space, frame)); r.taken <= d.taken && |d.taken| == |r.taken| + space
  {
    Split(space, frame);
  }

  lemma DroppingStands(c: Config, v: seq<Look>, n: World, x: Input)
    requires ValidConfig(c) && Stands(c, v, n) && Transport.Inv(c, n)
    requires n.h.pc.DropSpace? || n.h.pc.Drop?
    ensures Stands(c, More(v, n, x), Next(c, n, HostMoves(x)))
  {
    Earlier(v, n, x);
    AllWaitingIsWhole(c, n);
    if n.h.pc.Drop? {
      DropTakesAll(n.sh.o2h, n.h.pc.space, O2hFrame(c));
    }
    if v[0].x.call.Compute? { StillEntered(v, n, x, Next(c, n, HostMoves(x)).h); }
    hide More, Entered, Discard, FrameBytes, O2hFrame, H2oFrame, ReadSpace, Whole, Cycle;
  }

  lemma AskingStands(c: Config, v: seq<Look>, n: World, x: Input)
    requires ValidConfig(c) && Stands(c, v, n) && n.h.pc.AskClear?
    ensures Stands(c, More(v, n, x), Next(c, n, HostMoves(x)))
  {
    Earlier(v, n, x);
    if v[0].x.call.Compute? { StillEntered(v, n, x, Next(c, n, HostMoves(x)).h); }
    hide More, Entered, Dropped, O2hFrame, H2oFrame, ClearRequested, Cycle;
  }

  lemma ResettingStands(c: Config, v: seq<Look>, n: World, x: Input)
    requires ValidConfig(c) && Stands(c, v, n)
    requires n.h.pc.ResetSample? || n.h.pc.ResetInit? || n.h.pc.ResetEngine? || n.h.pc.ResetOwn?
    ensures Stands(c, More(v, n, x), Next(c, n, HostMoves(x)))
  {
    Earlier(v, n, x);
    var next := More(v, n, x);
    hide More, Entered, O2hFrame, H2oFrame, HostReset, Guarded, Level, Cycle;
    assert next[0] == v[0] && next[|v| - 1] == v[|v| - 1];
  }

  lemma Taken(r: Ring, n: nat)
    requires n <= ReadSpace(r)
    ensures Discard(r, n) == Read(r, n) && r.taken <= Read(r, n).taken && |Read(r, n).taken| == |r.taken| + n
  {
  }

  /** The frames that a reading host takes: as many as there are, up to five. */
  lemma AsManyAsThereAre(space: nat, frame: nat, frames: nat)
    requires 0 < frame <= space && frames == Min(space / frame, MAX_READ_FRAMES)
    ensures var gone := frames * frame;
            && Whole(gone, frame) && 0 < gone <= space && gone <= MAX_READ_FRAMES * frame && gone / frame == frames
            && (space - gone < frame || gone == MAX_READ_FRAMES * frame)
  {
    Split(space, frame);
    Transport.AtLeastOne(space, frame);
    Transport.ReadFits(space, frame, frames);
    Split(frames * frame, frame);
    SameQuotient(frames, frame, frames * frame / frame);
    if frames < space / frame { assert frames == MAX_READ_FRAMES; }
    else { assert frames * frame == space / frame * frame; }
    LessProduct(frames, MAX_READ_FRAMES, frame);
    LessProduct(1, frames, frame);
  }

  lemma LessProduct(a: nat, b: nat, f: nat)
    requires a <= b
    ensures a * f <= b * f
  {
  }

  lemma StrictlyLess(a: nat, b: nat, f: nat)
    requires a < b && f > 0
    ensures a * f < b * f
  {
    assert (a + 1) * f == a * f + f;
    LessProduct(a + 1, b, f);
  }

  lemma SameQuotient(a: nat, f: nat, q: nat)
    requires f > 0 && q * f == a * f
    ensures q == a
  {
    if q < a { StrictlyLess(q, a, f); }
    if a < q { StrictlyLess(a, q, f); }
  }

  lemma ReadsFrames(c: Config, v: seq<Look>, n: World, x: Input)
    requires ValidConfig(c) && Stands(c, v, n) && n.h.pc.ReaderTake? && n.h.pc.space <= ReadSpace(n.sh.o2h)
    requires n.h.reading && n.h.pc.space >= O2hFrame(c)
    ensures var m := Next(c, n, HostMoves(x)); ReadDone(c, v, m.h, m.sh.o2h.taken) && m.h.pc == Idle
  {
    var frame, m := O2hFrame(c), Next(c, n, HostMoves(x));
    var frames := Min(n.h.pc.space / frame, MAX_READ_FRAMES);
    AsManyAsThereAre(n.h.pc.space, frame, frames);
    Taken(n.sh.o2h, frames * frame);
    hide O2hFrame, Read, Whole, ReadSpace, Cycle, U32, Min, ComputeStep, ClearStep;
    assert m.sh.o2h == Read(n.sh.o2h, frames * frame) && m.h == Counted(n.h, frames);
    hide Next;
  }

  lemma ReadsNone(c: Config, v: seq<Look>, n: World, x: Input)
    requires ValidConfig(c) && Stands(c, v, n) && n.h.pc.ReaderTake?
    requires n.h.reading && n.h.pc.space < O2hFrame(c)
    ensures var m := Next(c, n, HostMoves(x)); ReadDone(c, v, m.h, m.sh.o2h.taken) && m.h.pc == Idle
  {
    hide O2hFrame, Read, ReadSpace, Cycle, U32, Min, ComputeStep, ClearStep;
  }

  lemma ReadsOn(c: Config, v: seq<Look>, n: World, x: Input)
    requires ValidConfig(c) && Stands(c, v, n) && n.h.pc.ReaderTake? && n.h.pc.space <= ReadSpace(n.sh.o2h)
    requires n.h.reading
    ensures var m := Next(c, n, HostMoves(x)); ReadDone(c, v, m.h, m.sh.o2h.taken) && m.h.pc == Idle
  {
    if n.h.pc.space >= O2hFrame(c) { ReadsFrames(c, v, n, x); } else { ReadsNone(c, v, n, x); }
    hide Next, ReadDone, Stands;
  }

  lemma ReadsAtLast(c: Config, v: seq<Look>, n: World, x: Input)
    requires ValidConfig(c) && Stands(c, v, n) && n.h.pc.ReaderTake? && n.h.pc.space <= ReadSpace(n.sh.o2h)
    requires !n.h.reading
    ensures var m := Next(c, n, HostMoves(x)); ReadDone(c, v, m.h, m.sh.o2h.taken) && m.h.pc == Idle
  {
    var space, unit := n.h.pc.space, n.h.bufsize * O2hFrame(c);
    if n.h.bufsize > 0 && space >= unit {
      Transport.TransferIsFrames(n.h.bufsize, O2hFrame(c));
      FrameBytesIsWhole(space, unit);
      Taken(n.sh.o2h, FrameBytes(space, unit));
    }
    hide Discard, FrameBytes, Whole, ReadSpace, O2hFrame, Cycle, U32;
  }

  lemma ReadingStands(c: Config, v: seq<Look>, n: World, x: Input)
    requires ValidConfig(c) && Stands(c, v, n) && Transport.Inv(c, n) && (n.h.pc.ReaderSpace? || n.h.pc.ReaderTake?)
    ensures Stands(c, More(v, n, x), Next(c, n, HostMoves(x)))
  {
    Earlier(v, n, x);
    if n.h.pc.ReaderSpace? {
      hide More, Entered, ReadDone, O2hFrame, H2oFrame, ReadSpace, Cycle;
    } else {
      Transport.ReaderMayTake(c, n);
      if n.h.reading { ReadsOn(c, v, n, x); } else { ReadsAtLast(c, v, n, x); }
      var m, next := Next(c, n, HostMoves(x)), More(v, n, x);
      hide Next, More;
      assert next[0] == v[0] && next[1] == v[1] && v[0].x.call.ReadAudio?;
      hide Stands;
      assert ReadDone(c, next, m.h, m.sh.o2h.taken);
      DoneStands(c, next, m);
    }
  }

  lemma DoneStands(c: Config, v: seq<Look>, m: World)
    requires ValidConfig(c) && |v| == 3 && v[0].x.call.ReadAudio? && ReadDone(c, v, m.h, m.sh.o2h.taken) && m.h.pc.Idle?
    ensures Stands(c, v, m)
  {
    hide ReadDone;
  }

  lemma WritingStands(c: Config, v: seq<Look>, n: World, x: Input)
    requires ValidConfig(c) && Stands(c, v, n)
    requires n.h.pc.WriterSample? || n.h.pc.WriterRequest? || n.h.pc.WriterSpace? || n.h.pc.WriterPut?
    ensures Stands(c, More(v, n, x), Next(c, n, HostMoves(x)))
  {
    Earlier(v, n, x);
    hide More, Entered, ReadDone, H2oFrame, O2hFrame, Requests.Requested, Requests.Charged, Write, WriteSpace, Cycle;
  }

  // ----- Runs -----

  lemma HostStands(c: Config, v: seq<Look>, n: World, x: Input)
    requires ValidConfig(c) && Stands(c, v, n) && Transport.Inv(c, n)
    ensures Stands(c, More(v, n, x), Next(c, n, HostMoves(x)))
  {
    match n.h.pc {
      case Idle => BeginStands(c, n, x);
      case SampleEngine(_, _) => SamplingStands(c, v, n, x);
      case SampleOwn(_, _, _) => SamplingStands(c, v, n, x);
      case NotifySteady => SamplingStands(c, v, n, x);
      case Load(_, _, _, _) => LoadStands(c, v, n, x);
      case DropSpace(_) => DroppingStands(c, v, n, x);
      case Drop(_, _) => DroppingStands(c, v, n, x);
      case AskClear(_) => AskingStands(c, v, n, x);
      case ResetSample => ResettingStands(c, v, n, x);
      case ResetInit(_) => ResettingStands(c, v, n, x);
      case ResetEngine(_) => ResettingStands(c, v, n, x);
      case ResetOwn => ResettingStands(c, v, n, x);
      case ReaderSpace => ReadingStands(c, v, n, x);
      case ReaderTake(_) => ReadingStands(c, v, n, x);
      case WriterSample => WritingStands(c, v, n, x);
      case WriterRequest => WritingStands(c, v, n, x);
      case WriterSpace(_) => WritingStands(c, v, n, x);
      case WriterPut(_, _) => WritingStands(c, v, n, x);
      case _ => SettingStands(c, v, n, x);
    }
    hide Stands, Next, Transport.Inv;
  }

  lemma CallbacksTakeNothing(c: Config, sh: Shared, e: Engine, u: Usb)
    requires ValidConfig(c) && (e.pc.In? || e.pc.Out?)
    ensures EngineStep(c, sh, e, u).0.o2h.taken == sh.o2h.taken
    ensures EngineStep(c, sh, e, u).0.h2o.accepted == sh.h2o.accepted
  {
    hide MainStep, FrameBytes, O2hTransfer, H2oTransfer, Zeros, Guarded, Level, OverbridgeUpdate, Front, WriteSpace,
         Min;
    if e.pc.In? { hide OutStep; } else { hide InStep; }
  }

  lemma EngineTakesNothing(c: Config, sh: Shared, e: Engine, u: Usb)
    requires ValidConfig(c)
    ensures EngineStep(c, sh, e, u).0.o2h.taken == sh.o2h.taken
    ensures EngineStep(c, sh, e, u).0.h2o.accepted == sh.h2o.accepted
  {
    if e.pc.In? || e.pc.Out? {
      CallbacksTakeNothing(c, sh, e, u);
      hide EngineStep;
    } else {
      hide InStep, OutStep, FrameBytes, O2hTransfer, H2oTransfer, Zeros, Guarded, Level, TopLeft, BootEntered,
           OverbridgeInit, Front, Min;
    }
  }

  lemma OthersStand(c: Config, v: seq<Look>, n: World, m: World)
    requires ValidConfig(c) && Stands(c, v, n) && m.h == n.h && m.sh.o2h.taken == n.sh.o2h.taken
    ensures Stands(c, v, m)
  {
    hide Entered, ReadDone, Promising, O2hFrame, ReadSpace, TooEarly;
  }

  lemma {:induction false} RunStands(c: Config, w: World, events: seq<Event>)
    requires ValidConfig(c) && Initial(c, w) && ValidEvents(c, events)
    ensures var n, v := Run(c, w, events), Looks(c, w, events); Stands(c, v, n)
  {
    if events != [] {
      var before, ev := events[..|events| - 1], events[|events| - 1];
      RunStands(c, w, before);
      Transport.RunKeepsInv(c, w, before);
      var n, v := Run(c, w, before), Looks(c, w, before);
      hide Stands, Transport.Inv, EngineStep, HostStep, More;
      match ev {
        case HostMoves(x) =>
          HostStands(c, v, n, x);
          hide Next;
        case EngineMoves(u) =>
          EngineTakesNothing(c, n.sh, n.e, u);
          OthersStand(c, v, n, Next(c, n, ev));
        case _ =>
          OthersStand(c, v, n, Next(c, n, ev));
      }
    }
  }

  /** In every run, when a cycle's call returns: either it came before there was anything to measure, and changed
      nothing, or it has made one entry, which tells the truth. */
  lemma CyclesTellTheTruth(c: Config, w: World, events: seq<Event>)
    requires ValidConfig(c) && Initial(c, w) && ValidEvents(c, events)
    ensures var h, v := Run(c, w, events).h, Looks(c, w, events);
            h.pc.Idle? && v != [] && v[0].x.call.Compute? ==> (TooEarly(v) && h == v[0].w.h) || Entered(v, h)
  {
    hide Run, Looks, Entered, Initial, ValidEvents;
    RunStands(c, w, events);
  }

  /** When a call to read returns, it has done what a reader must with what waited when it looked. */
  lemma ReadersTakeWhatWaits(c: Config, w: World, events: seq<Event>)
    requires ValidConfig(c) && Initial(c, w) && ValidEvents(c, events)
    ensures var n, v := Run(c, w, events), Looks(c, w, events);
            n.h.pc.Idle? && v != [] && v[0].x.call.ReadAudio? ==> |v| == 3 && ReadDone(c, v, n.h, n.sh.o2h.taken)
  {
    hide Run, Looks, ReadDone, Initial, ValidEvents;
    RunStands(c, w, events);
  }

  /** Whenever the buffers are cleared, everything that had waited is gone before the engine is asked to clear its
      own, and the host has stopped reading. */
  lemma ClearsDropAll(c: Config, w: World, events: seq<Event>)
    requires ValidConfig(c) && Initial(c, w) && ValidEvents(c, events)
    ensures var n, v := Run(c, w, events), Looks(c, w, events);
            n.h.pc.AskClear? ==> Dropped(v, n.h, n.sh.o2h.taken)
  {
    hide Run, Looks, Dropped, Initial, ValidEvents, Told;
    RunStands(c, w, events);
  }

  lemma ForcingStep(c: Config, sh: Shared, h: HostThread, x: Input)
    requires ValidConfig(c) && h.pc.ResetEngine?
    ensures HostStep(c, sh, h, x).0.status
            == if Level(h.pc.es) > Level(EsBoot) && !Stopped(sh.status) then EsBoot else sh.status
  {
    hide ComputeStep, AudioStep;
  }

  /** A reset sends the engine back to booting exactly when it had found it beyond that, however far it has come by
      then; a stopped one stays so. */
  lemma ResetsForceBoot(c: Config, w: World, events: seq<Event>, x: Input)
    requires ValidConfig(c) && Initial(c, w) && ValidEvents(c, events)
    ensures var n, v := Run(c, w, events), Looks(c, w, events);
            n.h.pc.ResetEngine? ==>
              && |v| >= 2 && v[|v| - 2].w.h.pc.ResetSample?
              && Next(c, n, HostMoves(x)).sh.status
                 == if Level(v[|v| - 2].w.sh.status) > Level(EsBoot) && !Stopped(n.sh.status) then EsBoot
                    else n.sh.status
  {
    hide Run, Looks, Initial, ValidEvents, HostStep, Level;
    RunStands(c, w, events);
    var n := Run(c, w, events);
    if n.h.pc.ResetEngine? { ForcingStep(c, n.sh, n.h, x); }
  }

  lemma HostAccepts(c: Config, sh: Shared, h: HostThread, x: Input)
    requires ValidConfig(c)
    ensures HostStep(c, sh, h, x).0.h2o.accepted
            == sh.h2o.accepted
               + if h.pc.WriterPut? && |h.pc.data| <= h.pc.space then h.pc.data else []
  {
    hide Cycle, HostReset, WriteSpace, Front, CountFrames, Requests.Requested, Requests.Charged, Guarded,
         ClearRequested, Level, FrameBytes, Min;
    assert sh.h2o.accepted + [] == sh.h2o.accepted;
  }

  lemma WritableThere(c: Config, v: seq<Look>, n: World)
    requires ValidConfig(c) && Stands(c, v, n)
    ensures Writable(c, v) <==> n.h.pc.WriterPut? && |n.h.pc.data| <= n.h.pc.space
    ensures n.h.pc.WriterPut? ==> |v| == 4 && n.h.pc.data == v[2].x.data
  {
    hide Entered, ReadDone, H2oFrame, O2hFrame, Requests.Requested, WriteSpace;
  }

  /** In every run the ring to the device has accepted exactly the frames, in order, of the cycles that found the
      resampler running or retuning, got what they had requested, and found room for it. */
  lemma {:induction false} AcceptedIsWritten(c: Config, w: World, events: seq<Event>)
    requires ValidConfig(c) && Initial(c, w) && ValidEvents(c, events)
    ensures Run(c, w, events).sh.h2o.accepted == Written(c, w, events)
  {
    if events != [] {
      var before, ev := events[..|events| - 1], events[|events| - 1];
      AcceptedIsWritten(c, w, before);
      RunStands(c, w, before);
      var n, v := Run(c, w, before), Looks(c, w, before);
      WritableThere(c, v, n);
      hide Stands, EngineStep, HostStep, Writable, Looks;
      match ev {
        case HostMoves(x) => HostAccepts(c, n.sh, n.h, x);
        case EngineMoves(u) => EngineTakesNothing(c, n.sh, n.e, u);
        case _ =>
      }
    }
  }

  // ----- Every call returns -----

  function StepsToReturn(pc: HostPc): nat {
    match pc
    case Idle => 0
    case SampleEngine(_, _) => 8
    case SampleOwn(_, _, _) => 7
    case Load(_, _, _, _) => 6
    case RunEngine => 5
    case RunOwn => 4
    case SetRetune(_) => 4
    case DropSpace(k) => if k.ThenReset? then 10 else 3
    case Drop(_, k) => if k.ThenReset? then 9 else 2
    case AskClear(k) => if k.ThenReset? then 8 else 1
    case ResetSample => 7
    case ResetInit(_) => 6
    case ResetEngine(_) => 5
    case ResetOwn => 4
    case ReaderSpace => 2
    case WriterSample => 4
    case WriterRequest => 3
    case WriterSpace(_) => 2
    case _ => 1
  }

  function HostSteps(events: seq<Event>): nat {
    if events == [] then 0 else HostSteps(events[..|events| - 1]) + if events[|events| - 1].HostMoves? then 1 else 0
  }

  lemma CloserInCycle(c: Config, sh: Shared, h: HostThread, x: Input)
    requires ValidConfig(c) && Computing(h.pc)
    ensures StepsToReturn(ComputeStep(sh, h, x).1.pc) < StepsToReturn(h.pc)
  {
    if h.pc.Load? { CycleEnters(h, sh.line, h.pc.now, h.pc.xrun, h.pc.es, h.pc.rs, x); }
    hide Cycle, Guarded, HostLoop.Free;
  }

  lemma CloserInClear(c: Config, sh: Shared, h: HostThread, x: Input)
    requires ValidConfig(c) && Clearing(h.pc)
    ensures StepsToReturn(ClearStep(c, sh, h, x).1.pc) < StepsToReturn(h.pc)
  {
    hide Discard, FrameBytes, HostReset, Guarded, ClearRequested, Level;
  }

  lemma CloserToReturn(c: Config, sh: Shared, h: HostThread, x: Input)
    requires ValidConfig(c) && !h.pc.Idle?
    ensures StepsToReturn(HostStep(c, sh, h, x).1.pc) < StepsToReturn(h.pc)
  {
    if Computing(h.pc) { CloserInCycle(c, sh, h, x); hide ComputeStep, StepsToReturn; }
    else if Clearing(h.pc) { CloserInClear(c, sh, h, x); hide ClearStep, StepsToReturn; }
    else { hide Discard, FrameBytes, Read, Write, Min, CountFrames, Requests.Requested, Requests.Charged; }
  }

  /** The call that was going on at first has not returned. */
  predicate Busy(c: Config, w: World, events: seq<Event>)
    requires ValidConfig(c)
  {
    !Run(c, w, events).h.pc.Idle? && (events == [] || Busy(c, w, events[..|events| - 1]))
  }

  lemma {:induction false} BusyNears(c: Config, w: World, events: seq<Event>)
    requires ValidConfig(c) && Busy(c, w, events)
    ensures StepsToReturn(Run(c, w, events).h.pc) + HostSteps(events) <= StepsToReturn(w.h.pc)
  {
    if events != [] {
      var n, ev := Run(c, w, events[..|events| - 1]), events[|events| - 1];
      BusyNears(c, w, events[..|events| - 1]);
      hide EngineStep, HostStep, StepsToReturn;
      if ev.HostMoves? { CloserToReturn(c, n.sh, n.h, ev.x); }
    }
  }

  /** No call goes on for ever, whatever the engine does: after so many of the thread's own steps it has returned. */
  lemma CallsReturn(c: Config, w: World, events: seq<Event>)
    requires ValidConfig(c) && HostSteps(events) >= StepsToReturn(w.h.pc)
    ensures !Busy(c, w, events)
  {
    if Busy(c, w, events) {
      BusyNears(c, w, events);
      NoStepsLeft(Run(c, w, events).h.pc);
      hide Run, StepsToReturn, HostSteps;
    }
  }

  lemma NoStepsLeft(pc: HostPc)
    ensures StepsToReturn(pc) == 0 ==> pc.Idle?
  {
  }

  // ----- Every clear is due -----

  predicate Clears(e: Entry) {
    e.WasReset? || e.act == Runs || e.act == Retunes
  }

  /** The entries that have to clear the buffers. */
  function DueClears(log: seq<Entry>): nat {
    if log == [] then 0 else DueClears(log[..|log| - 1]) + if Clears(log[|log| - 1]) then 1 else 0
  }

  /** A call to clear, or one that changes the size of a cycle. */
  predicate AsksFor(h: HostThread, call: Call) {
    h.pc.Idle? && (call.Clear? || (call.Resize? && h.bufsize != call.n && h.bufsize != 0))
  }

  function AskedClears(c: Config, w: World, events: seq<Event>): nat
    requires ValidConfig(c)
  {
    if events == [] then 0
    else
      var before, ev := events[..|events| - 1], events[|events| - 1];
      AskedClears(c, w, before) + if ev.HostMoves? && AsksFor(Run(c, w, before).h, ev.x.call) then 1 else 0
  }

  /** How often the engine was asked to clear. */
  function DoneClears(c: Config, w: World, events: seq<Event>): nat
    requires ValidConfig(c)
  {
    if events == [] then 0
    else
      var before, ev := events[..|events| - 1], events[|events| - 1];
      DoneClears(c, w, before) + if ev.HostMoves? && Run(c, w, before).h.pc.AskClear? then 1 else 0
  }

  function Pending(pc: HostPc): nat {
    if pc.RunEngine? || pc.RunOwn? || pc.SetRetune? || pc.DropSpace? || pc.Drop? || pc.AskClear? then 1 else 0
  }

  lemma OneMoreEntry(log: seq<Entry>, e: Entry)
    ensures DueClears(log + [e]) == DueClears(log) + if Clears(e) then 1 else 0
  {
    assert (log + [e])[..|log|] == log;
  }

  lemma DecideClears(h: HostThread, now: nat, rs: ResamplerStatus, xrun: bool, clamped: bool, decay: real)
    ensures var d := Decide(h, now, rs, xrun, clamped, decay); Pending(d.pc) + DueClears(h.log) == DueClears(d.log)
  {
    var act := Earned.DecideEntry(h, now, rs, xrun, clamped, decay);
    OneMoreEntry(h.log, Cycled(now, xrun, clamped, h.dll.err, h.rs, act));
    hide Decide, Elapsed, Earned.Near, DueClears;
  }

  lemma BootClearsNothing(m: HostThread, now: nat, xrun: bool, decay: real)
    ensures var d := WithFilter(Logged(m, now, xrun, false, Boots), 1.0, decay).(pc := SetBoot(now));
            Pending(d.pc) == 0 && DueClears(d.log) == DueClears(m.log)
  {
    OneMoreEntry(m.log, Cycled(now, xrun, false, m.dll.err, m.rs, Boots));
    hide DueClears, HostSetLoopFilter;
  }

  lemma CycleClears(h: HostThread, line: Overbridge, now: nat, xrun: bool, es: EngineStatus, rs: ResamplerStatus,
                    x: Input)
    ensures var d := Cycle(h, line, now, xrun, es, rs, x); Pending(d.pc) + DueClears(h.log) == DueClears(d.log)
  {
    hide HostUpdateError, HostUpdate, HostClamps, DueClears, Pending, Decide, WithFilter, Logged;
    var m := Measured(h, line, now, x.undefined);
    assert m.log == h.log;
    if rs == RsReady && es == EsWait {
      BootClearsNothing(m, now, xrun, x.decay);
    } else {
      var r := WithRatios(m.(dll := HostUpdate(m.dll)));
      assert r.log == h.log;
      DecideClears(r, now, rs, xrun, HostClamps(m.dll), x.decay);
    }
  }

  /** A step of the host: what it clears, against what becomes due. */
  predicate Settles(h: HostThread, n: HostThread, asked: bool) {
    (if h.pc.AskClear? then 1 else 0) + Pending(n.pc) + DueClears(h.log)
    == Pending(h.pc) + DueClears(n.log) + if asked then 1 else 0
  }

  lemma ComputeSettles(sh: Shared, h: HostThread, x: Input)
    requires Computing(h.pc)
    ensures Settles(h, ComputeStep(sh, h, x).1, false)
  {
    if h.pc.Load? { CycleClears(h, sh.line, h.pc.now, h.pc.xrun, h.pc.es, h.pc.rs, x); }
    hide Cycle, DueClears, Guarded, Level;
  }

  lemma ClearSettles(c: Config, sh: Shared, h: HostThread, x: Input)
    requires ValidConfig(c) && Clearing(h.pc)
    ensures Settles(h, ClearStep(c, sh, h, x).1, false)
  {
    OneMoreEntry(h.log, WasReset);
    hide DueClears, HostReset, Discard, FrameBytes, Guarded, Level, ClearRequested;
  }

  lemma HostSettles(c: Config, sh: Shared, h: HostThread, x: Input)
    requires ValidConfig(c)
    ensures Settles(h, HostStep(c, sh, h, x).1, AsksFor(h, x.call))
  {
    if Computing(h.pc) { ComputeSettles(sh, h, x); hide ComputeStep, Settles; }
    else if Clearing(h.pc) { ClearSettles(c, sh, h, x); hide ClearStep, Settles; }
    else { hide DueClears, Discard, FrameBytes, Read, Write, Min, Requests.Requested, Requests.Charged; }
  }

  /** In every run: every entry to RUN, every retuning, every reset, and every call that asks for it clears the
      buffers once, before the call returns, and nothing else does. */
  lemma {:induction false} ClearsAreDue(c: Config, w: World, events: seq<Event>)
    requires ValidConfig(c) && Initial(c, w)
    ensures var h := Run(c, w, events).h;
            DoneClears(c, w, events) + Pending(h.pc) == DueClears(h.log) + AskedClears(c, w, events)
  {
    if events != [] {
      var before, ev := events[..|events| - 1], events[|events| - 1];
      ClearsAreDue(c, w, before);
      var n := Run(c, w, before);
      hide EngineStep, HostStep, DueClears, Pending, AsksFor;
      if ev.HostMoves? { HostSettles(c, n.sh, n.h, ev.x); }
    }
  }
}
