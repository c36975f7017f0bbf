/** Audio through the two ring buffers: whatever the two threads interleave between checking the space
    and using it, no operation is short and no frame is lost, torn, duplicated or reordered. */
module Transport {
  import opened Ring
  import opened Machine
  import opened Words

  /** The h2o frames of the USB packets are as long as those of the rings: every input track has 4 bytes. */
  predicate Aligned(c: Config) {
    ValidConfig(c) && c.usbFrame == H2oFrame(c)
  }

  // ----- Device to host -----

  /** The space an engine step has seen and not used yet. */
  function O2hPromise(pc: EnginePc): nat {
    if pc.In? && pc.inPc.InWrite? then pc.inPc.space else 0
  }

  /** The bytes a host step has seen and not taken yet. */
  function O2hClaim(pc: HostPc): nat {
    match pc
    case Drop(space, _) => space
    case ReaderTake(space) => space
    case _ => 0
  }

  predicate O2hOk(c: Config, r: Ring, promise: nat, claim: nat) {
    && Conserved(r)
    && Whole(|r.accepted|, O2hTransfer(c)) && Whole(|r.taken|, O2hFrame(c))
    && promise <= WriteSpace(r) && claim <= ReadSpace(r)
  }

  lemma O2hEngineQuiet(c: Config, sh: Shared, e: Engine, u: Usb)
    requires ValidConfig(c) && !e.pc.In?
    ensures var (sh', e') := EngineStep(c, sh, e, u);
            sh'.o2h == sh.o2h && O2hPromise(e'.pc) == 0 && e'.inBuf == e.inBuf
  {
    hide Discard, FrameBytes, Read, Front, O2hTransfer, H2oTransfer, Zeros, Status.Guarded, Status.TopLeft,
         Status.BootEntered, Status.Level, Dll.OverbridgeInit, InStep;
  }

  /** The only steps of the engine that matter to this ring: looking at the space, and writing. */
  lemma O2hEngineIn(c: Config, sh: Shared, e: Engine, u: Usb)
    requires ValidConfig(c) && ValidUsb(c, u) && e.pc.In? && |e.inBuf| == O2hTransfer(c)
    ensures var (sh', e') := EngineStep(c, sh, e, u);
            && |e'.inBuf| == O2hTransfer(c)
            && (sh'.o2h == sh.o2h
                || (sh'.o2h == Write(sh.o2h, e.inBuf) && O2hTransfer(c) <= O2hPromise(e.pc)))
            && (O2hPromise(e'.pc) == 0 || (O2hPromise(e'.pc) == WriteSpace(sh.o2h) && sh'.o2h == sh.o2h))
  {
    hide WriteSpace, Write, O2hTransfer, Dll.OverbridgeUpdate, Status.Guarded, Status.Level, MainStep, OutStep;
  }

  lemma TransferIsFrames(frames: nat, frame: nat)
    requires frames > 0 && frame > 0
    ensures Whole(frames * frame, frame) && frames * frame > 0
  {
    MultipleIsWhole(frames, frame);
  }

  /** A checked transfer goes in whole. */
  lemma O2hWrite(c: Config, r: Ring, promise: nat, claim: nat, transfer: seq<byte>)
    requires ValidConfig(c) && O2hOk(c, r, promise, claim)
    requires |transfer| == O2hTransfer(c) <= promise
    ensures O2hOk(c, Write(r, transfer), 0, claim)
    ensures Write(r, transfer).data == r.data + transfer
  {
    hide O2hTransfer;
    WriteConserves(r, transfer);
    assert O2hTransfer(c) > 0;
    assert |transfer| % O2hTransfer(c) == 0;
    WholeSum(|r.accepted|, |transfer|, O2hTransfer(c));
  }

  /** A checked read or discard of whole frames takes exactly what was asked. */
  lemma O2hTake(c: Config, r: Ring, promise: nat, claim: nat, n: nat)
    requires ValidConfig(c) && O2hOk(c, r, promise, claim) && n <= claim && Whole(n, O2hFrame(c))
    ensures O2hOk(c, Read(r, n), promise, 0) && Discard(r, n) == Read(r, n)
    ensures |Front(r, n)| == n && r.data == Front(r, n) + Read(r, n).data
  {
    ReadConserves(r, n);
    WholeSum(|r.taken|, n, O2hFrame(c));
  }

  predicate O2hMove(c: Config, r: Ring, r': Ring, claim: nat, claim': nat) {
    || (r' == r && (claim' == 0 || claim' == ReadSpace(r)))
    || (claim' == 0
        && exists n: nat :: n <= claim && Whole(n, O2hFrame(c)) && (r' == Read(r, n) || r' == Discard(r, n)))
  }

  lemma O2hHostQuiet(c: Config, sh: Shared, h: HostThread, x: Input)
    requires ValidConfig(c) && !h.pc.Drop? && !h.pc.ReaderTake?
    ensures var (sh', h') := HostStep(c, sh, h, x);
            sh'.o2h == sh.o2h && (O2hClaim(h'.pc) == 0 || O2hClaim(h'.pc) == ReadSpace(sh.o2h))
  {
    hide Cycle, Dll.HostReset, Write, WriteSpace, Read, Discard, Dll.CountFrames, Requests.Requested, Requests.Charged,
         Status.Guarded, Status.ClearRequested, Status.Level, FrameBytes;
    if h.pc.Load? {
      CycleTouchesNoRing(h, sh.line, h.pc.now, h.pc.xrun, h.pc.es, h.pc.rs, x);
    }
  }

  lemma CycleTouchesNoRing(h: HostThread, line: Dll.Overbridge, now: nat, xrun: bool, es: Status.EngineStatus,
                    rs: Status.ResamplerStatus, x: Input)
    ensures var pc := Cycle(h, line, now, xrun, es, rs, x).pc;
            O2hClaim(pc) == 0 && !pc.WriterSpace? && !pc.WriterPut?
  {
    hide Dll.HostUpdateError, Dll.HostUpdate, Dll.HostClamps, Dll.HostSetLoopFilter, Dll.Tuned, Elapsed;
  }

  lemma O2hHostDrop(c: Config, sh: Shared, h: HostThread, x: Input)
    requires ValidConfig(c) && h.pc.Drop?
    ensures var (sh', h') := HostStep(c, sh, h, x);
            O2hMove(c, sh.o2h, sh'.o2h, O2hClaim(h.pc), O2hClaim(h'.pc))
  {
    FrameBytesIsWhole(h.pc.space, O2hFrame(c));
    hide Discard, Read, FrameBytes;
  }

  lemma O2hHostRead(c: Config, sh: Shared, h: HostThread, x: Input)
    requires ValidConfig(c) && h.pc.ReaderTake?
    ensures var (sh', h') := HostStep(c, sh, h, x);
            O2hMove(c, sh.o2h, sh'.o2h, O2hClaim(h.pc), O2hClaim(h'.pc))
  {
    var frame, space := O2hFrame(c), h.pc.space;
    if h.reading {
      if space >= frame {
        var frames := Min(space / frame, MAX_READ_FRAMES);
        ReadFits(space, frame, frames);
        hide Discard, Read;
        assert O2hMove(c, sh.o2h, HostStep(c, sh, h, x).0.o2h, space, 0);
      }
    } else if h.bufsize > 0 && space >= h.bufsize * frame {
      TransferIsFrames(h.bufsize, frame);
      FrameBytesIsWhole(space, h.bufsize * frame);
      WholeThrough(FrameBytes(space, h.bufsize * frame), h.bufsize * frame, frame);
      hide Discard, Read, FrameBytes;
      assert O2hMove(c, sh.o2h, HostStep(c, sh, h, x).0.o2h, space, 0);
    }
  }

  lemma ReadFits(space: nat, frame: nat, frames: nat)
    requires frame > 0 && frames <= space / frame
    ensures frames * frame <= space && Whole(frames * frame, frame)
  {
    Split(space, frame);
    MultipleIsWhole(frames, frame);
    assert frames * frame <= space / frame * frame;
  }

  lemma O2hMoveOk(c: Config, r: Ring, r': Ring, promise: nat, claim: nat, claim': nat)
    requires ValidConfig(c) && O2hOk(c, r, promise, claim) && O2hMove(c, r, r', claim, claim')
    ensures O2hOk(c, r', promise, claim')
  {
    if !(r' == r && (claim' == 0 || claim' == ReadSpace(r))) {
      var n: nat :| n <= claim && Whole(n, O2hFrame(c)) && (r' == Read(r, n) || r' == Discard(r, n));
      O2hTake(c, r, promise, claim, n);
    }
  }

  // ----- Host to device -----

  function H2oPromise(pc: HostPc): nat {
    if pc.WriterPut? then pc.space else 0
  }

  function H2oClaim(pc: EnginePc): nat {
    match pc
    case ClearDiscard(space) => space
    case Out(OutTestRun(space), _) => space
    case Out(OutEmpty(space), _) => space
    case Out(OutFetch(space), _) => space
    case _ => 0
  }

  /** The frames that the host is about to write. */
  predicate PendingIsWhole(c: Config, pc: HostPc) {
    match pc
    case WriterSpace(data) => Whole(|data|, H2oFrame(c))
    case WriterPut(_, data) => Whole(|data|, H2oFrame(c))
    case _ => true
  }

  predicate H2oOk(c: Config, r: Ring, promise: nat, claim: nat) {
    && Conserved(r)
    && Whole(|r.accepted|, H2oFrame(c)) && (Aligned(c) ==> Whole(|r.taken|, H2oFrame(c)))
    && promise <= WriteSpace(r) && claim <= ReadSpace(r)
  }

  lemma H2oWrite(c: Config, r: Ring, promise: nat, claim: nat, data: seq<byte>)
    requires ValidConfig(c) && H2oOk(c, r, promise, claim) && |data| <= promise && Whole(|data|, H2oFrame(c))
    ensures H2oOk(c, Write(r, data), 0, claim)
    ensures Write(r, data).data == r.data + data
  {
    WriteConserves(r, data);
    WholeSum(|r.accepted|, |data|, H2oFrame(c));
  }

  lemma H2oTake(c: Config, r: Ring, promise: nat, claim: nat, n: nat)
    requires ValidConfig(c) && H2oOk(c, r, promise, claim) && n <= claim && (Aligned(c) ==> Whole(n, H2oFrame(c)))
    ensures H2oOk(c, Read(r, n), promise, 0) && Discard(r, n) == Read(r, n)
    ensures |Front(r, n)| == n && r.data == Front(r, n) + Read(r, n).data
  {
    ReadConserves(r, n);
    if Aligned(c) { WholeSum(|r.taken|, n, H2oFrame(c)); }
  }

  predicate H2oMove(c: Config, r: Ring, r': Ring, claim: nat, claim': nat) {
    || (r' == r && (claim' == 0 || claim' == ReadSpace(r) || claim' == claim))
    || (claim' == 0
        && exists n: nat :: n <= claim && (Aligned(c) ==> Whole(n, H2oFrame(c)))
                            && (r' == Read(r, n) || r' == Discard(r, n)))
  }

  lemma H2oMoveOk(c: Config, r: Ring, r': Ring, promise: nat, claim: nat, claim': nat)
    requires ValidConfig(c) && H2oOk(c, r, promise, claim) && H2oMove(c, r, r', claim, claim')
    ensures H2oOk(c, r', promise, claim')
  {
    if !(r' == r && (claim' == 0 || claim' == ReadSpace(r) || claim' == claim)) {
      var n: nat :| n <= claim && (Aligned(c) ==> Whole(n, H2oFrame(c))) && (r' == Read(r, n) || r' == Discard(r, n));
      H2oTake(c, r, promise, claim, n);
    }
  }

  lemma H2oEngineQuiet(c: Config, sh: Shared, e: Engine, u: Usb)
    requires ValidConfig(c) && !e.pc.Out?
    ensures !e.pc.ClearDiscard? ==>
              var (sh', e') := EngineStep(c, sh, e, u);
              sh'.h2o == sh.h2o && (H2oClaim(e'.pc) == 0 || H2oClaim(e'.pc) == ReadSpace(sh.h2o))
    ensures e.pc.ClearDiscard? ==>
              var (sh', e') := EngineStep(c, sh, e, u);
              sh'.h2o == Discard(sh.h2o, FrameBytes(e.pc.space, c.usbFrame)) && H2oClaim(e'.pc) == 0
  {
    hide Discard, FrameBytes, Read, Front, Write, O2hTransfer, H2oTransfer, Zeros, Status.Guarded, Status.TopLeft,
         Status.BootEntered, Status.Level, Dll.OverbridgeInit, Dll.OverbridgeUpdate, OutStep;
  }

  lemma H2oTaken(c: Config, r: Ring, claim: nat, n: nat)
    requires ValidConfig(c) && n <= claim && (Aligned(c) ==> Whole(n, H2oFrame(c)))
    ensures H2oMove(c, r, Read(r, n), claim, 0) && H2oMove(c, r, Discard(r, n), claim, 0)
  {
    hide Read, Discard;
  }

  lemma H2oEngineOutQuiet(c: Config, sh: Shared, e: Engine, u: Usb)
    requires ValidConfig(c) && e.pc.Out? && !e.pc.outPc.OutEmpty? && !e.pc.outPc.OutFetch?
    ensures var (sh', e') := EngineStep(c, sh, e, u);
            sh'.h2o == sh.h2o
            && (H2oClaim(e'.pc) == 0 || H2oClaim(e'.pc) == ReadSpace(sh.h2o) || H2oClaim(e'.pc) == H2oClaim(e.pc))
  {
    hide Discard, FrameBytes, Read, Front, H2oTransfer, Zeros, Status.Guarded, Status.Level, ReadSpace, InStep,
         MainStep;
  }

  lemma FetchEffect(c: Config, sh: Shared, e: Engine, u: Usb)
    requires ValidConfig(c) && e.pc.Out? && e.pc.outPc.OutFetch?
    ensures var (sh', e') := EngineStep(c, sh, e, u);
            var space := e.pc.outPc.space;
            && H2oClaim(e'.pc) == 0
            && sh'.h2o == if space >= H2oTransfer(c) then Read(sh.h2o, H2oTransfer(c))
                          else if space > c.usbFrame then Read(sh.h2o, FrameBytes(space, c.usbFrame))
                          else sh.h2o
  {
    hide Discard, FrameBytes, Read, Front, H2oTransfer, H2oFrame, Zeros, InStep, MainStep, Whole;
  }

  lemma H2oTransferIsWhole(c: Config)
    requires ValidConfig(c)
    ensures Whole(H2oTransfer(c), H2oFrame(c))
  {
    TransferIsFrames(c.frames, H2oFrame(c));
  }

  lemma H2oPartIsWhole(c: Config, space: nat)
    requires ValidConfig(c)
    ensures Aligned(c) ==> Whole(FrameBytes(space, c.usbFrame), H2oFrame(c))
  {
    FrameBytesIsWhole(space, c.usbFrame);
  }

  lemma H2oEngineFetch(c: Config, sh: Shared, e: Engine, u: Usb)
    requires ValidConfig(c) && e.pc.Out? && e.pc.outPc.OutFetch?
    ensures var (sh', e') := EngineStep(c, sh, e, u);
            H2oMove(c, sh.h2o, sh'.h2o, H2oClaim(e.pc), H2oClaim(e'.pc))
  {
    hide EngineStep, FrameBytes, Read, H2oTransfer, H2oFrame, Whole, Discard, Aligned;
    var space := e.pc.outPc.space;
    FetchEffect(c, sh, e, u);
    if space >= H2oTransfer(c) {
      H2oTransferIsWhole(c);
      H2oTaken(c, sh.h2o, space, H2oTransfer(c));
    } else if space > c.usbFrame {
      H2oPartIsWhole(c, space);
      H2oTaken(c, sh.h2o, space, FrameBytes(space, c.usbFrame));
    }
  }

  lemma H2oEngineEmpty(c: Config, sh: Shared, e: Engine, u: Usb)
    requires ValidConfig(c) && e.pc.Out? && e.pc.outPc.OutEmpty?
    ensures var (sh', e') := EngineStep(c, sh, e, u);
            H2oMove(c, sh.h2o, sh'.h2o, H2oClaim(e.pc), H2oClaim(e'.pc))
  {
    var space := e.pc.outPc.space;
    FrameBytesIsWhole(space, c.usbFrame);
    H2oTaken(c, sh.h2o, space, FrameBytes(space, c.usbFrame));
    hide Discard, FrameBytes, Read, Front, H2oTransfer, Zeros, InStep, MainStep, H2oMove;
  }

  lemma H2oEngineMoves(c: Config, sh: Shared, e: Engine, u: Usb)
    requires ValidConfig(c)
    ensures var (sh', e') := EngineStep(c, sh, e, u);
            H2oMove(c, sh.h2o, sh'.h2o, H2oClaim(e.pc), H2oClaim(e'.pc))
  {
    if e.pc.Out? {
      if e.pc.outPc.OutEmpty? { H2oEngineEmpty(c, sh, e, u); }
      else if e.pc.outPc.OutFetch? { H2oEngineFetch(c, sh, e, u); }
      else { H2oEngineOutQuiet(c, sh, e, u); }
    } else {
      H2oEngineQuiet(c, sh, e, u);
      if e.pc.ClearDiscard? {
        FrameBytesIsWhole(e.pc.space, c.usbFrame);
      }
    }
    hide EngineStep, Discard, Read;
  }

  lemma H2oHostMoves(c: Config, sh: Shared, h: HostThread, x: Input)
    requires ValidConfig(c) && PendingIsWhole(c, h.pc)
    ensures var (sh', h') := HostStep(c, sh, h, x);
            && PendingIsWhole(c, h'.pc)
            && (if h.pc.WriterPut? then
                  H2oPromise(h'.pc) == 0
                  && sh'.h2o == (if |h.pc.data| <= h.pc.space then Write(sh.h2o, h.pc.data) else sh.h2o)
                else
                  sh'.h2o == sh.h2o && (H2oPromise(h'.pc) == 0 || H2oPromise(h'.pc) == WriteSpace(sh.h2o)))
  {
    if h.pc.Load? {
      CycleTouchesNoRing(h, sh.line, h.pc.now, h.pc.xrun, h.pc.es, h.pc.rs, x);
    }
    if h.pc.WriterRequest? {
      RequestIsWhole(Requests.Requested(h.account.acc, h.bufsize, h.h2oRatio), H2oFrame(c), |x.data|);
    }
    hide Cycle, Dll.HostReset, Write, WriteSpace, Read, Discard, Dll.CountFrames, Requests.Requested, Requests.Charged,
         Status.Guarded, Status.ClearRequested, Status.Level, FrameBytes, H2oFrame;
  }

  lemma RequestIsWhole(frames: int, frame: nat, bytes: nat)
    requires frame > 0
    ensures bytes == frames * frame ==> Whole(bytes, frame)
  {
    QuotientOfMultiple(frames, frame);
  }

  // ----- Runs -----

  predicate Inv(c: Config, w: World) {
    && |w.e.inBuf| == O2hTransfer(c)
    && O2hOk(c, w.sh.o2h, O2hPromise(w.e.pc), O2hClaim(w.h.pc))
    && H2oOk(c, w.sh.h2o, H2oPromise(w.h.pc), H2oClaim(w.e.pc))
    && PendingIsWhole(c, w.h.pc)
  }

  lemma InitialInv(c: Config, w: World)
    requires ValidConfig(c) && Initial(c, w)
    ensures Inv(c, w)
  {
    TransferIsFrames(c.frames, O2hFrame(c));
    MultipleIsWhole(0, O2hTransfer(c));
  }

  lemma EngineKeepsInv(c: Config, w: World, u: Usb)
    requires ValidConfig(c) && ValidUsb(c, u) && Inv(c, w)
    ensures Inv(c, Next(c, w, EngineMoves(u)))
  {
    var (sh, e) := EngineStep(c, w.sh, w.e, u);
    H2oEngineMoves(c, w.sh, w.e, u);
    H2oMoveOk(c, w.sh.h2o, sh.h2o, H2oPromise(w.h.pc), H2oClaim(w.e.pc), H2oClaim(e.pc));
    if w.e.pc.In? {
      O2hEngineIn(c, w.sh, w.e, u);
      if sh.o2h != w.sh.o2h {
        O2hWrite(c, w.sh.o2h, O2hPromise(w.e.pc), O2hClaim(w.h.pc), w.e.inBuf);
      }
    } else {
      O2hEngineQuiet(c, w.sh, w.e, u);
    }
    hide EngineStep, Write, H2oOk, O2hTransfer, O2hFrame;
  }

  lemma HostKeepsInv(c: Config, w: World, x: Input)
    requires ValidConfig(c) && Inv(c, w)
    ensures Inv(c, Next(c, w, HostMoves(x)))
  {
    var (sh, h) := HostStep(c, w.sh, w.h, x);
    H2oHostMoves(c, w.sh, w.h, x);
    if w.h.pc.WriterPut? && |w.h.pc.data| <= w.h.pc.space {
      H2oWrite(c, w.sh.h2o, H2oPromise(w.h.pc), H2oClaim(w.e.pc), w.h.pc.data);
    }
    assert O2hMove(c, w.sh.o2h, sh.o2h, O2hClaim(w.h.pc), O2hClaim(h.pc)) by {
      if w.h.pc.Drop? { O2hHostDrop(c, w.sh, w.h, x); }
      else if w.h.pc.ReaderTake? { O2hHostRead(c, w.sh, w.h, x); }
      else { O2hHostQuiet(c, w.sh, w.h, x); }
      hide HostStep;
    }
    O2hMoveOk(c, w.sh.o2h, sh.o2h, O2hPromise(w.e.pc), O2hClaim(w.h.pc), O2hClaim(h.pc));
    hide HostStep, Write, O2hOk, O2hMove;
  }

  lemma StepKeepsInv(c: Config, w: World, ev: Event)
    requires ValidConfig(c) && ValidEvent(c, ev) && Inv(c, w)
    ensures Inv(c, Next(c, w, ev))
  {
    match ev {
      case EngineMoves(u) => EngineKeepsInv(c, w, u);
      case HostMoves(x) => HostKeepsInv(c, w, x);
      case _ =>
    }
  }

  lemma {:induction false} RunKeepsInv(c: Config, w: World, events: seq<Event>)
    requires ValidConfig(c) && Initial(c, w) && ValidEvents(c, events)
    ensures Inv(c, Run(c, w, events))
  {
    if events == [] {
      InitialInv(c, w);
    } else {
      hide Next, Inv;
      RunKeepsInv(c, w, events[..|events| - 1]);
      StepKeepsInv(c, Run(c, w, events[..|events| - 1]), events[|events| - 1]);
    }
  }

  /** At every point of every run, what was taken from a ring or dropped, followed by what is in it, is
      exactly what was accepted, in order; the rings hold whole frames, the one to the device if no input
      track has 3 bytes; the ring from the device has accepted whole transfers only, so an overflow loses
      whole transfers, and the one to the device whole frames only. */
  lemma FramesAreConserved(c: Config, w: World, events: seq<Event>)
    requires ValidConfig(c) && Initial(c, w) && ValidEvents(c, events)
    ensures var n := Run(c, w, events).sh;
            && n.o2h.taken + n.o2h.data == n.o2h.accepted && !n.o2h.broken
            && n.h2o.taken + n.h2o.data == n.h2o.accepted && !n.h2o.broken
            && Whole(|n.o2h.data|, O2hFrame(c)) && Whole(|n.o2h.accepted|, O2hTransfer(c))
            && Whole(|n.h2o.accepted|, H2oFrame(c)) && (Aligned(c) ==> Whole(|n.h2o.data|, H2oFrame(c)))
  {
    RunKeepsInv(c, w, events);
    hide Run, ValidEvent, Initial;
    RingsAreWhole(c, Run(c, w, events));
  }

  lemma RingsAreWhole(c: Config, w: World)
    requires ValidConfig(c) && Inv(c, w)
    ensures Whole(|w.sh.o2h.data|, O2hFrame(c)) && (Aligned(c) ==> Whole(|w.sh.h2o.data|, H2oFrame(c)))
  {
    var n := w.sh;
    TransferIsFrames(c.frames, O2hFrame(c));
    WholeThrough(|n.o2h.accepted|, O2hTransfer(c), O2hFrame(c));
    hide O2hTransfer, O2hFrame, H2oFrame;
    WholeSum(|n.o2h.accepted|, |n.o2h.taken|, O2hFrame(c));
    if Aligned(c) { WholeSum(|n.h2o.accepted|, |n.h2o.taken|, H2oFrame(c)); }
    hide Whole;
    assert |n.o2h.data| == |n.o2h.accepted| - |n.o2h.taken|;
    assert |n.h2o.data| == |n.h2o.accepted| - |n.h2o.taken|;
  }

  /** No operation that follows its space check is short, whatever happened in between: a write that was
      found to fit is stored whole, a read that was found to be available is delivered whole, and a discard
      never passes the write pointer. */
  lemma NothingIsShort(c: Config, w: World, events: seq<Event>)
    requires ValidConfig(c) && Initial(c, w) && ValidEvents(c, events)
    ensures var n := Run(c, w, events); var pc := n.e.pc; var hpc := n.h.pc;
            && (pc.In? && pc.inPc.InWrite? && O2hTransfer(c) <= pc.inPc.space ==>
                  Write(n.sh.o2h, n.e.inBuf).data == n.sh.o2h.data + n.e.inBuf)
            && (pc.Out? && pc.outPc.OutFetch? && H2oTransfer(c) <= pc.outPc.space ==>
                  |Front(n.sh.h2o, H2oTransfer(c))| == H2oTransfer(c))
            && H2oClaim(pc) <= |n.sh.h2o.data|
            && (hpc.WriterPut? && |hpc.data| <= hpc.space ==>
                  Write(n.sh.h2o, hpc.data).data == n.sh.h2o.data + hpc.data)
            && O2hClaim(hpc) <= |n.sh.o2h.data|
  {
    RunKeepsInv(c, w, events);
    var n := Run(c, w, events);
    hide Run;
    if n.e.pc.In? && n.e.pc.inPc.InWrite? && O2hTransfer(c) <= n.e.pc.inPc.space {
      WriteConserves(n.sh.o2h, n.e.inBuf);
    }
    if n.h.pc.WriterPut? && |n.h.pc.data| <= n.h.pc.space {
      WriteConserves(n.sh.h2o, n.h.pc.data);
    }
  }

  // ----- What the buffers get -----

  /** What lies between the bytes taken and those after n more, in the stream that was accepted. */
  function Upcoming(r: Ring, n: nat): (bs: seq<byte>)
    requires |r.taken| + n <= |r.accepted|
    ensures |bs| == n
  {
    r.accepted[|r.taken|..|r.taken| + n]
  }

  lemma FrontIsUpcoming(r: Ring, n: nat)
    requires Conserved(r) && n <= ReadSpace(r)
    ensures |r.taken| + n <= |r.accepted| && Front(r, n) == Upcoming(r, n)
            && Read(r, n).taken == r.taken + Upcoming(r, n)
  {
    assert r.accepted == r.taken + r.data;
  }

  /** When the engine fetches a transfer, its buffer gets the next accepted frames, however long ago it
      looked at the space; and what does not fit when a transfer is stored is the whole transfer. */
  lemma EngineMovesTransfers(c: Config, w: World, events: seq<Event>, u: Usb)
    requires ValidConfig(c) && Initial(c, w) && ValidEvents(c, events)
    ensures var n := Run(c, w, events);
            var (sh, e) := EngineStep(c, n.sh, n.e, u);
            && (n.e.pc.Out? && n.e.pc.outPc.OutFetch? && H2oTransfer(c) <= n.e.pc.outPc.space ==>
                  && |n.sh.h2o.taken| + H2oTransfer(c) <= |n.sh.h2o.accepted|
                  && e.outBuf == Upcoming(n.sh.h2o, H2oTransfer(c))
                  && sh.h2o.taken == n.sh.h2o.taken + e.outBuf && sh.h2o.accepted == n.sh.h2o.accepted)
            && (n.e.pc.In? && n.e.pc.inPc.InWrite? ==>
                  sh.o2h.data == n.sh.o2h.data + (if O2hTransfer(c) <= n.e.pc.inPc.space then n.e.inBuf else []))
  {
    RunKeepsInv(c, w, events);
    var n := Run(c, w, events);
    hide Run, ValidEvents, Initial;
    if n.e.pc.Out? && n.e.pc.outPc.OutFetch? && H2oTransfer(c) <= n.e.pc.outPc.space {
      FrontIsUpcoming(n.sh.h2o, H2oTransfer(c));
      hide InStep, MainStep, H2oTransfer, O2hTransfer, H2oFrame, O2hFrame, FrameBytes, Discard;
    } else if n.e.pc.In? && n.e.pc.inPc.InWrite? {
      if O2hTransfer(c) <= n.e.pc.inPc.space { WriteConserves(n.sh.o2h, n.e.inBuf); }
      hide OutStep, MainStep, H2oTransfer, O2hTransfer, H2oFrame, O2hFrame, FrameBytes, Discard, Write;
    }
  }

  /** The reader took n frames that had been accepted next, and added n to the DLL's counter. */
  predicate TookAndCounted(c: Config, sh: Shared, h: HostThread, sh': Shared, h': HostThread, n: nat) {
    var bytes := n * O2hFrame(c);
    && 0 < n <= MAX_READ_FRAMES
    && h'.dll.frames == U32(h.dll.frames + n)
    && |sh.o2h.taken| + bytes <= |sh.o2h.accepted|
    && sh'.o2h.taken == sh.o2h.taken + Upcoming(sh.o2h, bytes)
  }

  lemma ReaderStep(c: Config, sh: Shared, h: HostThread, x: Input) returns (frames: nat)
    requires ValidConfig(c) && Conserved(sh.o2h)
    requires h.pc.ReaderTake? && h.reading && O2hFrame(c) <= h.pc.space <= ReadSpace(sh.o2h)
    ensures TookAndCounted(c, sh, h, HostStep(c, sh, h, x).0, HostStep(c, sh, h, x).1, frames)
  {
    var frame, space := O2hFrame(c), h.pc.space;
    frames := Min(space / frame, MAX_READ_FRAMES);
    AtLeastOne(space, frame);
    ReadFits(space, frame, frames);
    hide O2hFrame;
    var bytes := frames * frame;
    FrontIsUpcoming(sh.o2h, bytes);
    hide Read, Front, Conserved, Upcoming;
    assert HostStep(c, sh, h, x).0.o2h == Read(sh.o2h, bytes);
    assert HostStep(c, sh, h, x).1.dll == Dll.CountFrames(h.dll, frames);
  }

  lemma ReaderMayTake(c: Config, w: World)
    requires Inv(c, w) && w.h.pc.ReaderTake?
    ensures Conserved(w.sh.o2h) && w.h.pc.space <= ReadSpace(w.sh.o2h)
  {
  }

  /** The frames that the reader adds to the DLL's counter are the ones it takes, unless it has to make
      them up because there are none, or because it has not started to read. */
  lemma ReaderCountsWhatItTakes(c: Config, w: World, events: seq<Event>, x: Input)
    requires ValidConfig(c) && Initial(c, w) && ValidEvents(c, events)
    ensures var n := Run(c, w, events);
            var (sh, h) := HostStep(c, n.sh, n.h, x);
            n.h.pc.ReaderTake? && n.h.reading && n.h.pc.space >= O2hFrame(c) ==>
              exists frames :: TookAndCounted(c, n.sh, n.h, sh, h, frames)
  {
    RunKeepsInv(c, w, events);
    hide Run, ValidEvents, Initial, Inv, O2hFrame, HostStep, TookAndCounted;
    var n := Run(c, w, events);
    if n.h.pc.ReaderTake? && n.h.reading && n.h.pc.space >= O2hFrame(c) {
      ReaderMayTake(c, n);
      var frames := ReaderStep(c, n.sh, n.h, x);
    }
  }

  lemma AtLeastOne(n: nat, f: nat)
    requires 0 < f <= n
    ensures n / f >= 1
  {
    Split(n, f);
  }
}
