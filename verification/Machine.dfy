/** The engine thread (run_audio and its USB callbacks, src/engine.c) and the host thread (the JACK
    callbacks of src/resampler.c) as one state machine. A step of a thread is one locked section or
    one ring operation, with the thread-local work next to it; between two steps anything else can
    happen. A status is sampled in one step and acted upon in a later one. */
module Machine {
  import opened Words
  import opened Status
  import opened Ring
  import opened Dll
  import opened Requests

  // ----- Configuration -----

  const BYTES_PER_SAMPLE: nat := 4
  const MAX_READ_FRAMES: nat := 5
  const BOOTING_PERIOD_US: nat := 3_000_000
  const TUNING_PERIOD_US: nat := 4_000_000
  const BOOTING_ERROR: real := 0.001
  const TUNING_ERROR: real := 0.00001
  const TWO64: nat := 0x1_0000_0000_0000_0000

  /** `dll` tells whether a resampler drives the engine. `usbFrame` is the engine's size of an
      h2o frame, which counts the bytes of the USB packets. */
  datatype Config = Config(dll: bool, outputs: nat, inputs: nat, usbFrame: nat, frames: nat)

  predicate ValidConfig(c: Config) {
    c.outputs > 0 && c.inputs > 0 && c.usbFrame > 0 && 0 < c.frames < 0x8000_0000
  }

  function O2hFrame(c: Config): nat { c.outputs * BYTES_PER_SAMPLE }

  function H2oFrame(c: Config): nat { c.inputs * BYTES_PER_SAMPLE }

  function O2hTransfer(c: Config): nat { c.frames * O2hFrame(c) }

  function H2oTransfer(c: Config): nat { c.frames * H2oFrame(c) }

  function Zeros(n: nat): seq<byte> { seq(n, _ => 0) }

  // ----- State -----

  /** What both threads touch. `line` is the device side of the DLL, under the engine's lock. */
  datatype Shared = Shared(status: EngineStatus, o2hOption: bool, h2oOption: bool,
                           o2h: Ring, h2o: Ring, line: Overbridge)

  datatype InPc =
    | InDelivered(completed: bool) | InUpdate | InDecoded(st: EngineStatus) | InSpace | InWrite(space: nat)
    | InRecheck | InSubmit

  datatype OutPc =
    | OutDelivered | OutMute | OutUnflag | OutSpace | OutTestRun(space: nat) | OutEmpty(space: nat)
    | OutFetch(space: nat) | OutBlocks | OutRecheck | OutSubmit

  datatype EnginePc =
    | InitLine | SubmitFirstIn | SubmitFirstOut | PublishReady | AwaitSteady | EnterBoot
    | LoopTop | LeaveTop | PollStatus | HandleEvents | CheckLeave
    | ClearSpace | ClearDiscard(space: nat) | ClearSilence | Drain | Done
    | In(inPc: InPc, draining: bool)
    | Out(outPc: OutPc, draining: bool)

  /** `inFlight` and `outFlight` count submitted transfers, `submits` all submissions so far. */
  datatype Engine = Engine(pc: EnginePc, inFlight: nat, outFlight: nat, submits: nat,
                           reading: bool, inBuf: seq<byte>, outBuf: seq<byte>)

  /** What the rest of ow_resampler_clear_buffers' caller does afterwards. */
  datatype After = Return | StampPhase(now: nat) | ThenReset

  datatype HostPc =
    | Idle
    | SampleEngine(now: nat, xrun: bool) | SampleOwn(now: nat, xrun: bool, es: EngineStatus)
    | NotifySteady | Load(now: nat, xrun: bool, es: EngineStatus, rs: ResamplerStatus)
    | SetBoot(now: nat) | SetTune(now: nat) | RunEngine | RunOwn | SetRetune(now: nat)
    | DropSpace(k: After) | Drop(space: nat, k: After) | AskClear(k: After)
    | ResetSample | ResetInit(es: EngineStatus) | ResetEngine(es: EngineStatus) | ResetOwn
    | ReaderSpace | ReaderTake(space: nat)
    | WriterSample | WriterRequest | WriterSpace(data: seq<byte>) | WriterPut(space: nat, data: seq<byte>)

  datatype Act = Boots | Tunes | Restarts | Runs | Retunes | Stays

  /** The history of the cycles that reached the DLL, and of the resets. */
  datatype Entry =
    | Cycled(now: nat, xrun: bool, clamped: bool, err: real, before: ResamplerStatus, act: Act)
    | WasReset

  /** `account` is the accumulator with the totals it has produced. */
  datatype HostThread = HostThread(pc: HostPc, rs: ResamplerStatus, dll: Host, h2oRatio: real,
                                   phaseStart: nat, reading: bool, bufsize: nat, samplerate: real,
                                   account: Account, log: seq<Entry>)

  datatype World = World(sh: Shared, e: Engine, h: HostThread)

  // ----- Engine thread -----

  datatype Pick = DeliverIn | DeliverOut | NoEvent

  /** What libusb, the device and libsamplerate decide. */
  datatype Usb = Usb(pick: Pick, completed: bool, submitOk: bool, samples: seq<byte>, resampled: seq<byte>, now: nat)

  predicate ValidUsb(c: Config, u: Usb) {
    |u.samples| == O2hTransfer(c) && |u.resampled| == H2oTransfer(c)
  }

  function SubmitIn(sh: Shared, e: Engine, next: EnginePc, ok: bool): (Shared, Engine) {
    if ok then (sh, e.(pc := next, inFlight := e.inFlight + 1, submits := e.submits + 1))
    else (sh.(status := Guarded(sh.status, EsError)), e.(pc := next))
  }

  function SubmitOut(sh: Shared, e: Engine, next: EnginePc, ok: bool): (Shared, Engine) {
    if ok then (sh, e.(pc := next, outFlight := e.outFlight + 1, submits := e.submits + 1))
    else (sh.(status := Guarded(sh.status, EsError)), e.(pc := next))
  }

  /** One call that handles USB events runs any number of callbacks, then returns. */
  function Events(sh: Shared, e: Engine, draining: bool, u: Usb): (Shared, Engine) {
    match u.pick
    case DeliverIn =>
      if e.inFlight == 0 then (sh, e)
      else (sh, e.(pc := In(InDelivered(u.completed), draining), inFlight := e.inFlight - 1))
    case DeliverOut =>
      if e.outFlight == 0 then (sh, e)
      else (sh, e.(pc := Out(OutDelivered, draining), outFlight := e.outFlight - 1))
    case NoEvent =>
      (sh, e.(pc := if draining then Done else PollStatus))
  }

  function AfterCallback(draining: bool): EnginePc {
    if draining then Drain else HandleEvents
  }

  /** run_audio. */
  function MainStep(c: Config, sh: Shared, e: Engine, u: Usb): (Shared, Engine)
    requires ValidConfig(c) && !e.pc.In? && !e.pc.Out?
  {
    match e.pc
    case InitLine =>
      (if c.dll then sh.(line := OverbridgeInit(sh.line, OB_SAMPLE_RATE, c.frames)) else sh, e.(pc := SubmitFirstIn))
    case SubmitFirstIn => SubmitIn(sh, e, SubmitFirstOut, u.submitOk)
    case SubmitFirstOut => SubmitOut(sh, e, PublishReady, u.submitOk)
    case PublishReady => (sh.(status := EsReady), e.(pc := AwaitSteady))
    case AwaitSteady =>
      if c.dll then (sh, if sh.status == EsSteady then e.(pc := EnterBoot) else e)
      else (sh.(status := Guarded(sh.status, EsSteady)), e.(pc := EnterBoot))
    case EnterBoot =>
      (sh.(status := BootEntered(sh.status)), e.(pc := if Stopped(sh.status) then Done else LoopTop))
    case LoopTop => (sh, e.(pc := LeaveTop, reading := !c.dll))
    case LeaveTop =>
      (sh.(status := TopLeft(sh.status, c.dll)), e.(pc := if Stopped(sh.status) then Done else PollStatus))
    case PollStatus => (sh, e.(pc := if Level(sh.status) >= Level(EsWait) then HandleEvents else CheckLeave))
    case HandleEvents => Events(sh, e, false, u)
    case CheckLeave => (sh, e.(pc := if Level(sh.status) < Level(EsBoot) then Drain else ClearSpace))
    case ClearSpace => (sh, e.(pc := ClearDiscard(ReadSpace(sh.h2o))))
    case ClearDiscard(space) =>
      (sh.(h2o := Discard(sh.h2o, FrameBytes(space, c.usbFrame))), e.(pc := ClearSilence))
    case ClearSilence => (sh, e.(pc := LoopTop, outBuf := Zeros(H2oTransfer(c))))
    case Drain => Events(sh, e, true, u)
    case Done => (sh, e)
  }

  /** cb_xfr_audio_in and set_usb_input_data_blks. */
  function InStep(c: Config, sh: Shared, e: Engine, pc: InPc, draining: bool, u: Usb): (Shared, Engine) {
    match pc
    case InDelivered(completed) =>
      (sh, e.(pc := In(if completed && sh.o2hOption then InUpdate else InRecheck, draining)))
    case InUpdate =>
      (if c.dll then sh.(line := OverbridgeUpdate(sh.line, U32(c.frames), u.now)) else sh,
       e.(pc := In(InDecoded(sh.status), draining)))
    case InDecoded(st) =>
      (sh, e.(pc := In(if Level(st) < Level(EsRun) then InRecheck else InSpace, draining), inBuf := u.samples))
    case InSpace => (sh, e.(pc := In(InWrite(WriteSpace(sh.o2h)), draining)))
    case InWrite(space) =>
      (if O2hTransfer(c) <= space then sh.(o2h := Write(sh.o2h, e.inBuf)) else sh,
       e.(pc := In(InRecheck, draining)))
    case InRecheck =>
      (sh, e.(pc := if Level(sh.status) > Level(EsStop) then In(InSubmit, draining) else AfterCallback(draining)))
    case InSubmit => SubmitIn(sh, e, AfterCallback(draining), u.submitOk)
  }

  /** cb_xfr_audio_out and set_usb_output_data_blks. */
  function OutStep(c: Config, sh: Shared, e: Engine, pc: OutPc, draining: bool, u: Usb): (Shared, Engine)
    requires ValidConfig(c)
  {
    match pc
    case OutDelivered =>
      (sh, e.(pc := Out(if sh.h2oOption then OutSpace else if e.reading then OutMute else OutRecheck, draining)))
    case OutMute => (sh, e.(pc := Out(OutUnflag, draining), outBuf := Zeros(H2oTransfer(c))))
    case OutUnflag => (sh, e.(pc := Out(OutBlocks, draining), reading := false))
    case OutSpace =>
      var space := ReadSpace(sh.h2o);
      (sh, e.(pc := Out(if e.reading then OutFetch(space)
                        else if space >= H2oTransfer(c) then OutTestRun(space)
                        else OutBlocks, draining)))
    case OutTestRun(space) =>
      (sh, e.(pc := Out(if sh.status == EsRun then OutEmpty(space) else OutBlocks, draining)))
    case OutEmpty(space) =>
      (sh.(h2o := Discard(sh.h2o, FrameBytes(space, c.usbFrame))), e.(pc := Out(OutBlocks, draining), reading := true))
    case OutFetch(space) =>
      if space >= H2oTransfer(c) then
        (sh.(h2o := Read(sh.h2o, H2oTransfer(c))),
         e.(pc := Out(OutBlocks, draining), outBuf := Front(sh.h2o, H2oTransfer(c))))
      else if space > c.usbFrame then
        (sh.(h2o := Read(sh.h2o, FrameBytes(space, c.usbFrame))),
         e.(pc := Out(OutBlocks, draining), outBuf := u.resampled))
      else
        (sh, e.(pc := Out(OutBlocks, draining), outBuf := Zeros(H2oTransfer(c))))
    case OutBlocks => (sh, e.(pc := Out(OutRecheck, draining)))
    case OutRecheck =>
      (sh, e.(pc := if Level(sh.status) > Level(EsStop) then Out(OutSubmit, draining) else AfterCallback(draining)))
    case OutSubmit => SubmitOut(sh, e, AfterCallback(draining), u.submitOk)
  }

  function EngineStep(c: Config, sh: Shared, e: Engine, u: Usb): (Shared, Engine)
    requires ValidConfig(c)
  {
    match e.pc
    case In(pc, draining) => InStep(c, sh, e, pc, draining, u)
    case Out(pc, draining) => OutStep(c, sh, e, pc, draining, u)
    case _ => MainStep(c, sh, e, u)
  }

  // ----- Host thread -----

  datatype Call = Compute(now: nat, xrun: bool) | Reset | Clear | Resize(n: nat) | Resample(rate: real)
                | ReadAudio | WriteAudio

  /** What JACK and the libraries decide: the next call, and the values that C leaves undefined or that the
      model does not compute. */
  datatype Input = Input(call: Call, undefined: real, decay: real, counter: uint32, data: seq<byte>)

  predicate ValidInput(x: Input) {
    match x.call
    case Resize(n) => n > 0
    case Resample(rate) => rate > 0.0
    case _ => true
  }

  function Begin(h: HostThread, call: Call): HostThread {
    match call
    case Compute(now, xrun) => h.(pc := SampleEngine(now, xrun))
    case Reset => h.(pc := ResetSample)
    case Clear => h.(pc := DropSpace(Return))
    case Resize(n) =>
      if h.bufsize == n || h.bufsize == 0 then h else h.(pc := DropSpace(ThenReset), bufsize := n)
    case Resample(rate) =>
      if h.samplerate == rate then h else h.(pc := ResetSample, samplerate := rate)
    case ReadAudio => h.(pc := ReaderSpace)
    case WriteAudio => h.(pc := WriterSample)
  }

  /** uint64_t subtraction. */
  function Elapsed(now: nat, since: nat): nat {
    (now - since) % TWO64
  }

  function Logged(h: HostThread, now: nat, xrun: bool, clamped: bool, act: Act): HostThread {
    h.(log := h.log + [Cycled(now, xrun, clamped, h.dll.err, h.rs, act)])
  }

  function WithFilter(h: HostThread, bw: real, decay: real): HostThread {
    if h.samplerate == 0.0 then h
    else h.(dll := HostSetLoopFilter(h.dll, bw, h.bufsize, h.samplerate, decay))
  }

  function WithRatios(h: HostThread): HostThread {
    if h.dll.ratio == 0.0 then h else h.(h2oRatio := 1.0 / h.dll.ratio)
  }

  /** What ow_resampler_compute_ratios decides once the error and the ratio are known. */
  function Decide(h: HostThread, now: nat, rs: ResamplerStatus, xrun: bool, clamped: bool, decay: real): HostThread {
    var retune := xrun || clamped;
    var elapsed := Elapsed(now, h.phaseStart);
    if rs == RsBoot && elapsed > BOOTING_PERIOD_US && Tuned(h.dll, BOOTING_ERROR) then
      WithFilter(Logged(h, now, xrun, clamped, Tunes), 0.5, decay).(pc := SetTune(now))
    else if (rs == RsTune || rs == RsRetune) && retune then
      Logged(h, now, xrun, clamped, Restarts).(pc := Idle, phaseStart := now)
    else if (rs == RsTune || rs == RsRetune) && elapsed > TUNING_PERIOD_US && Tuned(h.dll, TUNING_ERROR) then
      WithFilter(Logged(h, now, xrun, clamped, Runs), 0.05, decay).(pc := RunEngine)
    else if rs == RsRun && retune then
      WithFilter(Logged(h, now, xrun, clamped, Retunes), 0.5, decay).(pc := SetRetune(now))
    else
      Logged(h, now, xrun, clamped, Stays).(pc := Idle)
  }

  function Measured(h: HostThread, line: Overbridge, now: nat, undefined: real): HostThread {
    h.(dll := HostUpdateError(LoadOverbridge(h.dll, line), now, undefined))
  }

  /** From the locked copy of the device's line to the next locked section. */
  function Cycle(h: HostThread, line: Overbridge, now: nat, xrun: bool, es: EngineStatus, rs: ResamplerStatus,
                 x: Input): HostThread {
    var m := Measured(h, line, now, x.undefined);
    if rs == RsReady && es == EsWait then
      WithFilter(Logged(m, now, xrun, false, Boots), 1.0, x.decay).(pc := SetBoot(now))
    else
      Decide(WithRatios(m.(dll := HostUpdate(m.dll))), now, rs, xrun, HostClamps(m.dll), x.decay)
  }

  /** ow_resampler_compute_ratios. */
  function ComputeStep(sh: Shared, h: HostThread, x: Input): (Shared, HostThread) {
    match h.pc
    case SampleEngine(now, xrun) => (sh, h.(pc := SampleOwn(now, xrun, sh.status)))
    case SampleOwn(now, xrun, es) =>
      (sh, h.(pc := if h.rs != RsReady || Level(es) > Level(EsBoot) then Load(now, xrun, es, h.rs)
                    else if es == EsReady then NotifySteady
                    else Idle))
    case NotifySteady => (sh.(status := Guarded(sh.status, EsSteady)), h.(pc := Idle))
    case Load(now, xrun, es, rs) => (sh, Cycle(h, sh.line, now, xrun, es, rs, x))
    case SetBoot(now) => (sh, h.(pc := Idle, rs := RsBoot, phaseStart := now))
    case SetTune(now) => (sh, h.(pc := Idle, rs := RsTune, phaseStart := now))
    case RunEngine => (sh.(status := Guarded(sh.status, EsRun)), h.(pc := RunOwn))
    case RunOwn => (sh, h.(pc := DropSpace(Return), rs := RsRun))
    case SetRetune(now) => (sh, h.(pc := DropSpace(StampPhase(now)), rs := RsRetune))
    case _ => (sh, h)
  }

  /** ow_resampler_clear_buffers, ow_resampler_reset. */
  function ClearStep(c: Config, sh: Shared, h: HostThread, x: Input): (Shared, HostThread)
    requires ValidConfig(c)
  {
    match h.pc
    case DropSpace(k) => (sh, h.(pc := Drop(ReadSpace(sh.o2h), k), reading := false))
    case Drop(space, k) =>
      (sh.(o2h := Discard(sh.o2h, FrameBytes(space, O2hFrame(c)))), h.(pc := AskClear(k)))
    case AskClear(k) =>
      (sh.(status := ClearRequested(sh.status)),
       match k
       case Return => h.(pc := Idle)
       case StampPhase(now) => h.(pc := Idle, phaseStart := now)
       case ThenReset => h.(pc := ResetSample))
    case ResetSample => (sh, h.(pc := ResetInit(sh.status)))
    case ResetInit(es) =>
      (sh.(line := sh.line.(boot := true)),
       WithRatios(h.(pc := ResetEngine(es),
                     dll := HostReset(HostInit(h.dll), h.samplerate, OB_SAMPLE_RATE, h.bufsize, c.frames, x.counter))))
    case ResetEngine(es) =>
      (if Level(es) > Level(EsBoot) then sh.(status := Guarded(sh.status, EsBoot)) else sh, h.(pc := ResetOwn))
    case ResetOwn => (sh, h.(pc := DropSpace(Return), rs := RsReady, log := h.log + [WasReset]))
    case _ => (sh, h)
  }

  function Counted(h: HostThread, frames: nat): HostThread {
    h.(pc := Idle, dll := CountFrames(h.dll, frames))
  }

  /** resampler_o2h_reader, ow_resampler_write_audio. */
  function AudioStep(c: Config, sh: Shared, h: HostThread, x: Input): (Shared, HostThread)
    requires ValidConfig(c)
  {
    var frame := O2hFrame(c);
    match h.pc
    case ReaderSpace => (sh, h.(pc := ReaderTake(ReadSpace(sh.o2h))))
    case ReaderTake(space) =>
      if h.reading then
        if space >= frame then
          var frames := Min(space / frame, MAX_READ_FRAMES);
          (sh.(o2h := Read(sh.o2h, frames * frame)), Counted(h, frames))
        else
          (sh, Counted(h, MAX_READ_FRAMES))
      else if h.bufsize > 0 && space >= h.bufsize * frame then
        (sh.(o2h := Discard(sh.o2h, FrameBytes(space, h.bufsize * frame))),
         Counted(h.(reading := true), MAX_READ_FRAMES))
      else
        (sh, Counted(h, MAX_READ_FRAMES))
    case WriterSample => (sh, h.(pc := if h.rs == RsRun || h.rs == RsRetune then WriterRequest else Idle))
    case WriterRequest =>
      var frames := Requested(h.account.acc, h.bufsize, h.h2oRatio);
      // The resampler returns what was asked for, or the cycle fails.
      (sh, h.(pc := if |x.data| == frames * H2oFrame(c) then WriterSpace(x.data) else Idle,
              account := Charged(h.account, Period(h.bufsize, h.h2oRatio))))
    case WriterSpace(data) => (sh, h.(pc := WriterPut(WriteSpace(sh.h2o), data)))
    case WriterPut(space, data) =>
      (if |data| <= space then sh.(h2o := Write(sh.h2o, data)) else sh, h.(pc := Idle))
    case _ => (sh, h)
  }

  predicate Computing(pc: HostPc) {
    pc.SampleEngine? || pc.SampleOwn? || pc.NotifySteady? || pc.Load? || pc.SetBoot? || pc.SetTune?
    || pc.RunEngine? || pc.RunOwn? || pc.SetRetune?
  }

  predicate Clearing(pc: HostPc) {
    pc.DropSpace? || pc.Drop? || pc.AskClear? || pc.ResetSample? || pc.ResetInit? || pc.ResetEngine? || pc.ResetOwn?
  }

  function HostStep(c: Config, sh: Shared, h: HostThread, x: Input): (Shared, HostThread)
    requires ValidConfig(c)
  {
    if h.pc.Idle? then (sh, Begin(h, x.call))
    else if Computing(h.pc) then ComputeStep(sh, h, x)
    else if Clearing(h.pc) then ClearStep(c, sh, h, x)
    else AudioStep(c, sh, h, x)
  }

  // ----- Runs -----

  /** Stop requests and option changes come from any other thread. Without a DLL there is no host. */
  datatype Event =
    | EngineMoves(u: Usb)
    | HostMoves(x: Input)
    | StopRequested
    | OptionsSet(o2h: bool, h2o: bool)

  predicate ValidEvent(c: Config, ev: Event) {
    match ev
    case EngineMoves(u) => ValidUsb(c, u)
    case HostMoves(x) => c.dll && ValidInput(x)
    case _ => true
  }

  function Next(c: Config, w: World, ev: Event): World
    requires ValidConfig(c)
  {
    match ev
    case EngineMoves(u) =>
      var (sh, e) := EngineStep(c, w.sh, w.e, u);
      World(sh, e, w.h)
    case HostMoves(x) =>
      var (sh, h) := HostStep(c, w.sh, w.h, x);
      World(sh, w.e, h)
    case StopRequested => w.(sh := w.sh.(status := Guarded(w.sh.status, EsStop)))
    case OptionsSet(o2h, h2o) => w.(sh := w.sh.(o2hOption := o2h, h2oOption := h2o))
  }

  /** The world when pthread_create starts run_audio. */
  predicate Initial(c: Config, w: World) {
    && w.sh.status == EsStop
    && w.sh.o2h == Empty(w.sh.o2h.capacity)
    && w.sh.h2o == Empty(w.sh.h2o.capacity)
    && w.sh.line.boot
    && w.e.pc == InitLine && w.e.inFlight == 0 && w.e.outFlight == 0 && w.e.submits == 0
    && w.e.inBuf == Zeros(O2hTransfer(c)) && w.e.outBuf == Zeros(H2oTransfer(c))
    && w.h.pc == Idle && w.h.rs == RsReady
    && w.h.bufsize > 0 && w.h.samplerate > 0.0
    && 0 <= w.h.dll.frames < TWO32
    && w.h.dll == HostReset(HostInit(w.h.dll), w.h.samplerate, OB_SAMPLE_RATE, w.h.bufsize, c.frames, w.h.dll.frames)
    && w.h.dll.ratio != 0.0 && w.h.h2oRatio == 1.0 / w.h.dll.ratio
    && w.h.account == Account(0.0, 0, 0.0)
    && w.h.log == []
  }

  predicate ValidEvents(c: Config, events: seq<Event>) {
    forall k :: 0 <= k < |events| ==> ValidEvent(c, events[k])
  }

  function Run(c: Config, w: World, events: seq<Event>): World
    requires ValidConfig(c)
  {
    if events == [] then w
    else Next(c, Run(c, w, events[..|events| - 1]), events[|events| - 1])
  }
}
