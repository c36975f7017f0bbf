/** Runs in which audio flows: the engine comes back from clearing, a transfer from the device goes through its ring
    to the host, and one to the device begins; and an engine without a host comes to run by itself. */
module AudioReached {
  import opened Words
  import opened Reals
  import opened Status
  import opened Ring
  import opened Dll
  import opened Requests
  import opened Machine
  import opened Reached
  import Calls
  import Rates

  lemma EngineDoes(c: Config, w: World, n: World, u: Usb) returns (m: World)
    requires ValidConfig(c) && Reaches(c, w, n) && ValidUsb(c, u)
    ensures Reaches(c, w, m) && m.h == n.h && (m.sh, m.e) == EngineStep(c, n.sh, n.e, u)
  {
    hide EngineStep, Reaches, ValidUsb;
    m := Go(c, w, n, EngineMoves(u));
  }

  // ----- Without a host -----

  lemma PublishesAlone(c: Config, w: World) returns (n: World)
    requires ValidConfig(c) && !c.dll && Initial(c, w)
    ensures Reaches(c, w, n) && n.sh == w.sh.(status := EsReady) && n.e.pc == AwaitSteady
    ensures n.e.inFlight == 1 && n.e.outFlight == 1
  {
    StartsThere(c, w);
    hide Reaches, H2oTransfer, O2hTransfer, Zeros;
    n := EngineGoes(c, w, w);
    n := EngineGoes(c, w, n);
    n := EngineGoes(c, w, n);
    n := EngineGoes(c, w, n);
  }

  lemma BootsAlone(c: Config, w: World, n: World) returns (m: World)
    requires ValidConfig(c) && !c.dll && Reaches(c, w, n) && n.e.pc == AwaitSteady && n.sh.status == EsReady
    ensures Reaches(c, w, m) && m.sh == n.sh.(status := EsBoot) && m.e == n.e.(pc := LeaveTop, reading := true)
  {
    hide Reaches, H2oTransfer, O2hTransfer, Zeros;
    m := EngineGoes(c, w, n);
    m := EngineGoes(c, w, m);
    m := EngineGoes(c, w, m);
  }

  /** Without a DLL the engine's thread alone leads from every initial world to RUN, and reads at once. */
  lemma RunsAlone(c: Config, w: World) returns (n: World)
    requires ValidConfig(c) && !c.dll && Initial(c, w)
    ensures Reaches(c, w, n) && n.sh.status == EsRun && n.e.pc == HandleEvents && n.e.reading
    ensures n.e.inFlight == 1 && n.e.outFlight == 1
  {
    hide Reaches, Initial, H2oTransfer, O2hTransfer, Zeros;
    n := PublishesAlone(c, w);
    n := BootsAlone(c, w, n);
    n := EngineGoes(c, w, n);
    n := EngineGoes(c, w, n);
  }

  // ----- Back from clearing -----

  /** There is nothing to clear. */
  lemma ClearsNothing(c: Config, w: World, n: World) returns (m: World)
    requires ValidConfig(c) && Reaches(c, w, n) && n.e.pc == ClearDiscard(0) && Unused(n.sh)
    ensures Reaches(c, w, m) && m.h == n.h && m.sh == n.sh && m.e.pc == LoopTop
    ensures m.e.inFlight == n.e.inFlight && m.e.outFlight == n.e.outFlight
  {
    assert FrameBytes(0, c.usbFrame) == 0;
    assert Discard(n.sh.h2o, 0) == n.sh.h2o;
    hide Reaches, H2oTransfer, O2hTransfer, Zeros, Discard, FrameBytes;
    m := EngineGoes(c, w, n);
    m := EngineGoes(c, w, m);
  }

  /** An engine that was asked to clear, with nothing to clear, runs and handles events. */
  lemma EngineReturns(c: Config, w: World, n: World) returns (m: World)
    requires ValidConfig(c) && c.dll && Reaches(c, w, n) && n.e.pc == PollStatus && n.sh.status == EsClear
             && Unused(n.sh)
    ensures Reaches(c, w, m) && m.h == n.h && m.sh == n.sh.(status := EsRun) && m.e.pc == HandleEvents
    ensures !m.e.reading && m.e.inFlight == n.e.inFlight && m.e.outFlight == n.e.outFlight
  {
    hide Reaches, H2oTransfer, O2hTransfer, Zeros;
    m := EngineLooks(c, w, n);
    m := ClearsNothing(c, w, m);
    hide Unused;
    m := EngineGoes(c, w, m);
    m := EngineGoes(c, w, m);
    m := EngineGoes(c, w, m);
  }

  // ----- From the device -----

  function Bringing(c: Config, samples: seq<byte>): Usb {
    Usb(DeliverIn, true, true, samples, Zeros(H2oTransfer(c)), 0)
  }

  lemma TransferDecoded(c: Config, w: World, n: World, samples: seq<byte>) returns (m: World)
    requires ValidConfig(c) && c.dll && Reaches(c, w, n) && n.e.pc == HandleEvents && n.sh.status == EsRun
    requires n.sh.o2hOption && n.e.inFlight == 1 && |samples| == O2hTransfer(c)
    ensures Reaches(c, w, m) && m.h == n.h && m.sh == n.sh.(line := m.sh.line)
    ensures m.e == n.e.(pc := In(InDecoded(EsRun), false), inFlight := 0)
  {
    var u := Bringing(c, samples);
    assert ValidUsb(c, u);
    hide Reaches, H2oTransfer, O2hTransfer, Zeros, OverbridgeUpdate, ValidUsb, U32;
    m := EngineDoes(c, w, n, u);
    m := EngineDoes(c, w, m, u);
    m := EngineDoes(c, w, m, u);
  }

  lemma TransferWritten(c: Config, w: World, n: World, samples: seq<byte>) returns (m: World)
    requires ValidConfig(c) && Reaches(c, w, n) && n.e.pc == In(InDecoded(EsRun), false)
    requires |samples| == O2hTransfer(c) <= WriteSpace(n.sh.o2h)
    ensures Reaches(c, w, m) && m.h == n.h && m.sh == n.sh.(o2h := Write(n.sh.o2h, samples))
    ensures m.e == n.e.(pc := In(InRecheck, false), inBuf := samples)
  {
    var u := Bringing(c, samples);
    assert ValidUsb(c, u);
    hide Reaches, H2oTransfer, O2hTransfer, Zeros, Write, WriteSpace, ValidUsb;
    m := EngineDoes(c, w, n, u);
    m := EngineDoes(c, w, m, u);
    m := EngineDoes(c, w, m, u);
  }

  /** A transfer that arrives in RUN lies in the ring, and is submitted again. */
  lemma TransferStored(c: Config, w: World, n: World, samples: seq<byte>) returns (m: World)
    requires ValidConfig(c) && c.dll && Reaches(c, w, n) && n.e.pc == HandleEvents && n.sh.status == EsRun
    requires n.sh.o2hOption && n.e.inFlight == 1
    requires |samples| == O2hTransfer(c) <= WriteSpace(n.sh.o2h)
    ensures Reaches(c, w, m) && m.h == n.h && m.sh == n.sh.(line := m.sh.line, o2h := Write(n.sh.o2h, samples))
    ensures m.e == n.e.(inBuf := samples, submits := m.e.submits)
  {
    hide Reaches, H2oTransfer, O2hTransfer, Zeros, Write, WriteSpace;
    m := TransferDecoded(c, w, n, samples);
    m := TransferWritten(c, w, m, samples);
    m := EngineGoes(c, w, m);
    m := EngineGoes(c, w, m);
  }

  // ----- To the host -----

  /** A transfer is so many whole frames. */
  lemma TransferInFrames(c: Config)
    requires ValidConfig(c)
    ensures O2hFrame(c) <= O2hTransfer(c) && O2hTransfer(c) / O2hFrame(c) == c.frames
    ensures 1 * O2hFrame(c) == O2hFrame(c) && FrameBytes(O2hTransfer(c), O2hFrame(c)) == O2hTransfer(c)
  {
    var f, n := O2hFrame(c), c.frames;
    Split(n * f, f);
    QuotientOfMultiple(n, f);
    Calls.SameQuotient(n, f, n * f / f);
    Calls.LessProduct(1, n, f);
  }

  /** A host that did not read yet finds at least a cycle, drops all of it and starts to read. */
  lemma HostStarts(c: Config, w: World, n: World) returns (m: World)
    requires ValidConfig(c) && c.dll && Reaches(c, w, n) && n.h.pc == Idle && !n.h.reading && n.h.bufsize == 1
    requires |n.sh.o2h.data| == O2hTransfer(c)
    ensures Reaches(c, w, m) && m.e == n.e && m.sh == n.sh.(o2h := Discard(n.sh.o2h, O2hTransfer(c)))
    ensures m.h == n.h.(reading := true, dll := m.h.dll)
  {
    TransferInFrames(c);
    hide Reaches, H2oTransfer, O2hTransfer, O2hFrame, FrameBytes, Discard, Read, CountFrames;
    m := HostGoes(c, w, n, ReadAudio, []);
    m := HostGoes(c, w, m, ReadAudio, []);
    m := HostGoes(c, w, m, ReadAudio, []);
  }

  /** The frames that the next call takes of a whole transfer. */
  function FirstFrames(c: Config): nat {
    Min(c.frames, MAX_READ_FRAMES)
  }

  function FirstBytes(c: Config): (n: nat)
    ensures n <= O2hTransfer(c)
  {
    Calls.LessProduct(FirstFrames(c), c.frames, O2hFrame(c));
    FirstFrames(c) * O2hFrame(c)
  }

  lemma HostTakes(c: Config, w: World, n: World) returns (m: World)
    requires ValidConfig(c) && c.dll && Reaches(c, w, n) && n.h.pc == Idle && n.h.reading
    requires |n.sh.o2h.data| == O2hTransfer(c)
    ensures Reaches(c, w, m) && m.e == n.e && m.sh == n.sh.(o2h := Read(n.sh.o2h, FirstBytes(c)))
    ensures m.h == n.h.(dll := CountFrames(n.h.dll, FirstFrames(c)))
  {
    TransferInFrames(c);
    hide Reaches, H2oTransfer, O2hTransfer, O2hFrame, FrameBytes, Discard, Read, CountFrames;
    m := HostGoes(c, w, n, ReadAudio, []);
    m := HostGoes(c, w, m, ReadAudio, []);
    m := HostGoes(c, w, m, ReadAudio, []);
  }

  // ----- All together -----

  /** What the two transfers and the two reads leave in the ring's history. */
  lemma RingAfter(r: Ring, first: seq<byte>, second: seq<byte>, n: nat)
    requires r == Empty(r.capacity) && |first| <= r.capacity && |second| <= r.capacity && n <= |second|
    ensures var a := Write(r, first);
            var b := Discard(a, |first|);
            var d := Write(b, second);
            && a.data == first && b.data == [] && WriteSpace(b) == r.capacity && d.data == second
            && Read(d, n).accepted == first + second && Read(d, n).taken == first + second[..n]
            && Read(d, n).data == second[n..]
  {
    assert first[..|first|] == first && second[..|second|] == second && [] + first == first && [] + second == second;
    assert first[|first|..] == [] && [] + first + second == first + second;
  }

  /** From every initial world with a ring for a transfer, for any samples: JACK and the engine come to run, the host
      clears and the engine comes back; the first transfer that then arrives lies in the ring until the host starts
      to read, and of the second one the host gets the first frames. */
  lemma AudioArrives(c: Config, w: World, d: Decays, first: seq<byte>, second: seq<byte>) returns (n: World)
    requires ValidConfig(c) && c.dll && Initial(c, w) && c.frames <= 224 && ValidDecays(d)
    requires |first| == |second| == O2hTransfer(c) <= w.sh.o2h.capacity
    ensures Reaches(c, w, n) && n.h.rs == RsRun && n.sh.status == EsRun && n.h.reading
    ensures n.sh.o2h.accepted == first + second
    ensures n.sh.o2h.taken == first + second[..FirstBytes(c)]
  {
    hide Reaches, Initial, Slow, O2hTransfer, O2hFrame, Write, WriteSpace, Read, Discard;
    var boot, tune, run := RunIsReached(c, w, d);
    assert run.h.bufsize == 1;
    hide Placid;
    Join(c, w, boot, tune);
    Join(c, w, tune, run);
    n := Clears(c, w, run);
    n := EngineReturns(c, w, n);
    var r := n.sh.o2h;
    RingAfter(r, first, second, FirstBytes(c));
    assert WriteSpace(r) == r.capacity by { EmptyHasRoom(r.capacity); }
    n := TransferStored(c, w, n, first);
    n := HostStarts(c, w, n);
    n := TransferStored(c, w, n, second);
    n := HostTakes(c, w, n);
  }

  lemma EmptyHasRoom(room: nat)
    ensures WriteSpace(Empty(room)) == room
  {
  }

  // ----- To the device -----

  /** Something that is not silence. */
  function Tone(n: nat): seq<byte> { seq(n, _ => 1) }

  /** JACK plays, in cycles of one frame at about its nominal ratio. */
  predicate Playing(n: World) {
    && n.h.pc == Idle && n.h.rs == RsRun && n.h.bufsize == 1 && 0.9 <= n.h.h2oRatio <= 1.2 && Balanced(n.h.account)
    && n.sh.h2o.data == Tone(|n.sh.h2o.data|)
  }

  /** JACK has written `frames` more. */
  predicate Played(c: Config, n: World, m: World, frames: nat) {
    && m.e == n.e && m.sh == n.sh.(h2o := m.sh.h2o) && m.sh.h2o.capacity == n.sh.h2o.capacity
    && m.h.h2oRatio == n.h.h2oRatio && m.h.account.asked == n.h.account.asked + frames
    && |m.sh.h2o.data| == |n.sh.h2o.data| + frames * H2oFrame(c)
  }

  lemma RequestIsSmall(a: Account, ratio: real)
    requires Balanced(a) && 0.9 <= ratio <= 1.2
    ensures 0 <= Requested(a.acc, 1, ratio) <= 2
    ensures var n := Charged(a, Period(1, ratio));
            Balanced(n) && n.asked == a.asked + Requested(a.acc, 1, ratio) && n.due == a.due + ratio
  {
    ChargeKeepsBalance(a, Period(1, ratio));
    assert 1 as real * (ratio - 1.0) == ratio - 1.0 && 1 as real * ratio == ratio;
  }

  lemma ToneGrows(r: Ring, n: nat)
    requires r.data == Tone(|r.data|) && |r.data| + n <= r.capacity
    ensures Write(r, Tone(n)).data == Tone(|r.data| + n) && WriteSpace(r) >= n
  {
    assert Tone(n)[..n] == Tone(n);
  }

  lemma MayWrite(c: Config, w: World, n: World, data: seq<byte>) returns (m: World)
    requires ValidConfig(c) && c.dll && Reaches(c, w, n) && n.h.pc == Idle && n.h.rs == RsRun
    ensures Reaches(c, w, m) && m.e == n.e && m.sh == n.sh && m.h == n.h.(pc := WriterRequest)
  {
    hide Reaches;
    m := HostGoes(c, w, n, WriteAudio, data);
    m := HostGoes(c, w, m, WriteAudio, data);
  }

  lemma Asks(c: Config, w: World, n: World, data: seq<byte>) returns (m: World)
    requires ValidConfig(c) && c.dll && Reaches(c, w, n) && n.h.pc == WriterRequest
    requires |data| == H2oFrame(c) * Requested(n.h.account.acc, n.h.bufsize, n.h.h2oRatio)
    ensures Reaches(c, w, m) && m.e == n.e && m.sh == n.sh
    ensures m.h == n.h.(pc := WriterSpace(data),
                        account := Charged(n.h.account, Period(n.h.bufsize, n.h.h2oRatio)))
  {
    hide Reaches, Requested, Charged, H2oFrame;
    m := HostGoes(c, w, n, WriteAudio, data);
  }

  lemma Puts(c: Config, w: World, n: World, data: seq<byte>) returns (m: World)
    requires ValidConfig(c) && c.dll && Reaches(c, w, n) && n.h.pc == WriterSpace(data)
    requires |data| <= WriteSpace(n.sh.h2o)
    ensures Reaches(c, w, m) && m.e == n.e && m.h == n.h.(pc := Idle)
    ensures m.sh == n.sh.(h2o := Write(n.sh.h2o, data))
  {
    hide Reaches, Write, WriteSpace;
    m := HostGoes(c, w, n, WriteAudio, data);
    m := HostGoes(c, w, m, WriteAudio, data);
  }

  /** One cycle. */
  lemma Plays(c: Config, w: World, n: World) returns (m: World, frames: nat)
    requires ValidConfig(c) && c.dll && Reaches(c, w, n) && Playing(n)
    requires |n.sh.h2o.data| + 2 * H2oFrame(c) <= n.sh.h2o.capacity
    ensures Reaches(c, w, m) && Playing(m) && Played(c, n, m, frames) && frames <= 2
    ensures m.h.account.due == n.h.account.due + n.h.h2oRatio
  {
    RequestIsSmall(n.h.account, n.h.h2oRatio);
    frames := Requested(n.h.account.acc, n.h.bufsize, n.h.h2oRatio);
    Calls.LessProduct(frames, 2, H2oFrame(c));
    var data := Tone(frames * H2oFrame(c));
    ToneGrows(n.sh.h2o, |data|);
    hide Reaches, Requested, Charged, H2oFrame, Balanced, Write, WriteSpace;
    m := MayWrite(c, w, n, data);
    m := Asks(c, w, m, data);
    m := Puts(c, w, m, data);
    assert |Tone(|n.sh.h2o.data| + |data|)| == |n.sh.h2o.data| + |data|;
    hide Tone;
  }

  /** As many cycles. */
  lemma {:induction false} PlaysOn(c: Config, w: World, n: World, k: nat) returns (m: World, frames: nat)
    requires ValidConfig(c) && c.dll && Reaches(c, w, n) && Playing(n)
    requires |n.sh.h2o.data| + 2 * k * H2oFrame(c) <= n.sh.h2o.capacity
    ensures Reaches(c, w, m) && Playing(m) && Played(c, n, m, frames) && frames <= 2 * k
    ensures m.h.account.due >= n.h.account.due + 0.9 * k as real
  {
    hide Reaches, H2oFrame;
    if k == 0 {
      m, frames := n, 0;
      assert 0 * H2oFrame(c) == 0;
    } else {
      assert 2 * k * H2oFrame(c) == 2 * (k - 1) * H2oFrame(c) + 2 * H2oFrame(c);
      m, frames := PlaysOn(c, w, n, k - 1);
      Calls.LessProduct(frames, 2 * (k - 1), H2oFrame(c));
      var more: nat;
      var b := m;
      m, more := Plays(c, w, b);
      assert (frames + more) * H2oFrame(c) == frames * H2oFrame(c) + more * H2oFrame(c);
      frames := frames + more;
    }
  }

  /** Enough cycles for a transfer. */
  lemma PlaysTransfer(c: Config, w: World, n: World) returns (m: World, frames: nat)
    requires ValidConfig(c) && c.dll && Reaches(c, w, n) && Playing(n)
    requires |n.sh.h2o.data| + 4 * (c.frames + 2) * H2oFrame(c) <= n.sh.h2o.capacity
    ensures Reaches(c, w, m) && Playing(m) && Played(c, n, m, frames)
    ensures |m.sh.h2o.data| >= H2oTransfer(c)
  {
    hide Reaches, H2oFrame;
    assert 4 * (c.frames + 2) * H2oFrame(c) == 2 * (2 * (c.frames + 2)) * H2oFrame(c);
    m, frames := PlaysOn(c, w, n, 2 * (c.frames + 2));
    assert frames as real > 0.9 * (2 * (c.frames + 2)) as real - 2.0;
    assert frames >= c.frames;
    Calls.LessProduct(c.frames, frames, H2oFrame(c));
  }

  function Asking(c: Config): Usb {
    Usb(DeliverOut, true, true, Zeros(O2hTransfer(c)), Zeros(H2oTransfer(c)), 0)
  }

  /** A transfer to the device has come back, with the option on. */
  lemma EngineAsked(c: Config, w: World, n: World) returns (m: World)
    requires ValidConfig(c) && Reaches(c, w, n) && n.e.pc == HandleEvents && n.sh.h2oOption && n.e.outFlight == 1
    ensures Reaches(c, w, m) && m.h == n.h && m.sh == n.sh && m.e == n.e.(pc := Out(OutSpace, false), outFlight := 0)
  {
    assert ValidUsb(c, Asking(c));
    hide Reaches, ValidUsb, H2oTransfer, O2hTransfer, Zeros;
    m := EngineDoes(c, w, n, Asking(c));
    m := EngineDoes(c, w, m, Asking(c));
  }

  /** With a transfer waiting, the engine begins to read, and drops what waits. */
  lemma EngineStarts(c: Config, w: World, n: World) returns (m: World)
    requires ValidConfig(c) && Reaches(c, w, n) && n.e.pc == Out(OutSpace, false) && n.sh.status == EsRun
    requires !n.e.reading && ReadSpace(n.sh.h2o) >= H2oTransfer(c)
    ensures Reaches(c, w, m) && m.h == n.h && m.e == n.e.(pc := Out(OutBlocks, false), reading := true)
    ensures m.sh == n.sh.(h2o := Discard(n.sh.h2o, FrameBytes(ReadSpace(n.sh.h2o), c.usbFrame)))
  {
    hide Reaches, H2oTransfer, O2hTransfer, Zeros, ReadSpace, Discard, FrameBytes;
    m := EngineGoes(c, w, n);
    m := EngineGoes(c, w, m);
    m := EngineGoes(c, w, m);
  }

  /** And the next transfer that waits is what it sends. */
  lemma EngineSends(c: Config, w: World, n: World) returns (m: World)
    requires ValidConfig(c) && Reaches(c, w, n) && n.e.pc == Out(OutSpace, false)
    requires n.e.reading && ReadSpace(n.sh.h2o) >= H2oTransfer(c)
    ensures Reaches(c, w, m) && m.h == n.h
    ensures m.e == n.e.(pc := Out(OutBlocks, false), outBuf := Front(n.sh.h2o, H2oTransfer(c)))
  {
    hide Reaches, H2oTransfer, O2hTransfer, Zeros, ReadSpace, Read, Front, FrameBytes;
    m := EngineGoes(c, w, n);
    m := EngineGoes(c, w, m);
  }

  lemma EngineSubmits(c: Config, w: World, n: World) returns (m: World)
    requires ValidConfig(c) && Reaches(c, w, n) && n.e.pc == Out(OutBlocks, false) && n.sh.status == EsRun
    ensures Reaches(c, w, m) && m.h == n.h && m.sh == n.sh
    ensures m.e == n.e.(pc := HandleEvents, outFlight := n.e.outFlight + 1, submits := n.e.submits + 1)
  {
    hide Reaches, H2oTransfer, O2hTransfer, Zeros;
    m := EngineGoes(c, w, n);
    m := EngineGoes(c, w, m);
    m := EngineGoes(c, w, m);
  }

  /** Dropping leaves less than a frame, and no tone turns to silence. */
  lemma ToneLeft(r: Ring, frame: nat)
    requires r.data == Tone(|r.data|) && frame > 0
    ensures var d := Discard(r, FrameBytes(ReadSpace(r), frame));
            && |d.data| < frame && d.data == Tone(|d.data|) && d.capacity == r.capacity
  {
    Split(|r.data|, frame);
  }

  lemma ToneInFront(r: Ring, n: nat)
    requires r.data == Tone(|r.data|) && n <= |r.data|
    ensures Front(r, n) == Tone(n)
  {
  }

  /** The ratio while all is well. */
  lemma GentleRatio(ratio: real)
    requires 0.9 <= ratio <= 1.1
    ensures 0.9 <= 1.0 / ratio <= 1.2
  {
    var q := 1.0 / ratio;
    assert q * ratio == 1.0;
    if q < 0.9 { PositiveProduct(0.9 - q, ratio, 0.9 * ratio - 1.0); }
    if q > 1.2 { PositiveProduct(q - 1.2, ratio, 1.0 - 1.2 * ratio); }
  }

  /** The host has run since an initial world and JACK begins to play. */
  lemma BeginsToPlay(c: Config, w: World, d: Decays) returns (n: World)
    requires ValidConfig(c) && c.dll && Initial(c, w) && c.frames <= 224 && ValidDecays(d)
    ensures Reaches(c, w, n) && Playing(n) && n.sh.status == EsRun && n.e.pc == HandleEvents && !n.e.reading
    ensures n.sh.h2oOption && n.e.outFlight == 1 && n.sh.h2o == Empty(w.sh.h2o.capacity)
  {
    hide Reaches, Initial, Slow, Balanced;
    var boot, tune, run := RunIsReached(c, w, d);
    Join(c, w, boot, tune);
    Join(c, w, tune, run);
    GentleRatioOf(run);
    hide Placid;
    n := Clears(c, w, run);
    n := EngineReturns(c, w, n);
    assert Balanced(n.h.account) by { AccountsBalance(c, w, n); }
    assert [] == Tone(0);
  }

  lemma GentleRatioOf(n: World)
    requires Placid(n.h, 0.003)
    ensures n.h.bufsize == 1 && 0.9 <= n.h.h2oRatio <= 1.2
  {
    GentleRatio(n.h.dll.ratio);
  }

  lemma AccountsBalance(c: Config, w: World, n: World)
    requires ValidConfig(c) && Initial(c, w) && Reaches(c, w, n)
    ensures Balanced(n.h.account)
  {
    var events :| Path(c, w, n, events);
    hide Initial, Balanced, Run;
    Rates.RunKeepsInv(c, w, events);
  }

  /** From every initial world with a ring for a few transfers: JACK plays, the engine begins to read when a transfer
      waits, and what it then sends to the device is what JACK plays. */
  lemma AudioLeaves(c: Config, w: World, d: Decays) returns (n: World)
    requires ValidConfig(c) && c.dll && Initial(c, w) && c.frames <= 224 && ValidDecays(d)
    requires c.usbFrame <= H2oFrame(c) && H2oFrame(c) + 4 * (c.frames + 2) * H2oFrame(c) <= w.sh.h2o.capacity
    ensures Reaches(c, w, n) && n.e.pc == Out(OutBlocks, false) && n.e.reading
    ensures n.e.outBuf == Tone(H2oTransfer(c))
  {
    hide Reaches, Initial, H2oFrame, H2oTransfer, Balanced, Discard, FrameBytes, Front, Tone;
    var frames: nat;
    n := BeginsToPlay(c, w, d);
    n, frames := PlaysTransfer(c, w, n);
    ToneLeft(n.sh.h2o, c.usbFrame);
    n := EngineAsked(c, w, n);
    n := EngineStarts(c, w, n);
    n := EngineSubmits(c, w, n);
    n, frames := PlaysTransfer(c, w, n);
    ToneInFront(n.sh.h2o, H2oTransfer(c));
    n := EngineAsked(c, w, n);
    n := EngineSends(c, w, n);
  }
}
