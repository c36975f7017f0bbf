/** What each USB callback does in all, in terms of what the engine's thread saw at its own steps since the transfer
    was delivered, whatever the other threads did between them. */
module Callbacks {
  import opened Words
  import opened Status
  import opened Ring
  import opened Machine
  import Dll
  import Requests
  import Transport

  // ----- What the thread has seen -----

  /** The world before a step of the engine's thread, and what libusb and the device decided in it. */
  datatype View = View(w: World, u: Usb)

  predicate Delivers(e: Engine, u: Usb) {
    && (e.pc.HandleEvents? || e.pc.Drain?)
    && ((u.pick.DeliverIn? && e.inFlight > 0) || (u.pick.DeliverOut? && e.outFlight > 0))
  }

  function Extended(v: seq<View>, n: World, u: Usb): seq<View> {
    if Delivers(n.e, u) then [View(n, u)] else if v == [] then [] else v + [View(n, u)]
  }

  /** The thread's own steps since the latest delivery, which is the first of them. */
  function Views(c: Config, w: World, events: seq<Event>): seq<View>
    requires ValidConfig(c)
  {
    if events == [] then []
    else
      var before, ev := events[..|events| - 1], events[|events| - 1];
      if ev.EngineMoves? then Extended(Views(c, w, before), Run(c, w, before), ev.u) else Views(c, w, before)
  }

  // ----- Transfers from the device -----

  /** The first n views speak for storing the transfer: it is complete, then the option is on, then the engine runs
      when the line is updated, then the samples are decoded, and then there is room. */
  predicate Promising(c: Config, v: seq<View>, n: nat)
    requires n <= |v|
  {
    && (n >= 1 ==> v[0].u.pick.DeliverIn? && v[0].u.completed)
    && (n >= 2 ==> v[1].w.sh.o2hOption)
    && (n >= 3 ==> v[2].w.sh.status == EsRun)
    && (n >= 5 ==> O2hTransfer(c) <= WriteSpace(v[4].w.sh.o2h))
  }

  predicate Storable(c: Config, v: seq<View>) {
    1 <= |v| <= 5 && Promising(c, v, |v|)
  }

  /** The samples of all such transfers, in order; the one that has been seen to fit is stored in the next step. */
  function Offered(c: Config, w: World, events: seq<Event>): seq<byte>
    requires ValidConfig(c)
  {
    if events == [] then []
    else
      var before, ev := events[..|events| - 1], events[|events| - 1];
      var v := Views(c, w, before);
      Offered(c, w, before) + if ev.EngineMoves? && |v| == 5 && Storable(c, v) then v[3].u.samples else []
  }

  /** Where the callback is says what has been seen. */
  predicate InStands(c: Config, v: seq<View>, e: Engine) {
    if !e.pc.In? then !Storable(c, v)
    else
      match e.pc.inPc
      case InDelivered(completed) => |v| == 1 && v[0].u.pick.DeliverIn? && completed == v[0].u.completed
      case InUpdate => |v| == 2 && Storable(c, v)
      case InDecoded(st) => |v| == 3 && st == v[2].w.sh.status && Promising(c, v, 2)
      case InSpace => |v| == 4 && Storable(c, v) && e.inBuf == v[3].u.samples
      case InWrite(space) =>
        |v| == 5 && Promising(c, v, 4) && space == WriteSpace(v[4].w.sh.o2h) && e.inBuf == v[3].u.samples
      case _ => !Storable(c, v)
  }

  predicate InInv(c: Config, v: seq<View>, n: World, offered: seq<byte>) {
    InStands(c, v, n.e) && n.sh.o2h.accepted == offered
  }

  /** A transfer that was given up is not taken up again. */
  lemma GivenUp(c: Config, v: seq<View>, n: World, u: Usb)
    requires !Storable(c, v) && !Delivers(n.e, u)
    ensures !Storable(c, Extended(v, n, u))
  {
    hide O2hTransfer, WriteSpace, Delivers;
  }

  lemma Earlier(v: seq<View>, n: World, u: Usb)
    requires v != [] && !Delivers(n.e, u)
    ensures var next := Extended(v, n, u);
            && |next| == |v| + 1 && next[|v|] == View(n, u) && next[..|v|] == v
            && forall k :: 0 <= k < |v| ==> next[k] == v[k]
  {
    hide Delivers;
  }

  lemma InStores(c: Config, v: seq<View>, n: World, u: Usb)
    requires ValidConfig(c) && InStands(c, v, n.e) && n.e.pc.In?
    ensures var o2h := Next(c, n, EngineMoves(u)).sh.o2h;
            o2h.accepted == n.sh.o2h.accepted + if |v| == 5 && Storable(c, v) then v[3].u.samples else []
  {
    hide O2hTransfer, WriteSpace, Dll.OverbridgeUpdate, Guarded, MainStep, OutStep, Level;
    assert n.sh.o2h.accepted + [] == n.sh.o2h.accepted;
  }

  lemma InGivesUp(c: Config, v: seq<View>, n: World, u: Usb)
    requires ValidConfig(c) && InStands(c, v, n.e) && n.e.pc.In? && !Storable(c, v)
    ensures var pc := Next(c, n, EngineMoves(u)).e.pc; pc.In? ==> pc.inPc.InRecheck? || pc.inPc.InSubmit?
  {
    hide O2hTransfer, WriteSpace, Write, Dll.OverbridgeUpdate, Guarded, MainStep, OutStep;
  }

  lemma InGoesOn(c: Config, v: seq<View>, n: World, u: Usb)
    requires ValidConfig(c) && InStands(c, v, n.e) && n.e.pc.In? && Storable(c, v)
    ensures InStands(c, Extended(v, n, u), Next(c, n, EngineMoves(u)).e)
  {
    assert !Delivers(n.e, u);
    Earlier(v, n, u);
    hide O2hTransfer, WriteSpace, Write, Dll.OverbridgeUpdate, Guarded, MainStep, OutStep, Delivers, Extended;
  }

  lemma InPlaces(c: Config, v: seq<View>, n: World, u: Usb)
    requires ValidConfig(c) && InStands(c, v, n.e) && n.e.pc.In?
    ensures InStands(c, Extended(v, n, u), Next(c, n, EngineMoves(u)).e)
  {
    if Storable(c, v) {
      InGoesOn(c, v, n, u);
      hide Next, InStands, Storable, Extended;
    } else {
      InGivesUp(c, v, n, u);
      GivenUp(c, v, n, u);
      hide Next, Storable, Extended;
    }
  }

  /** Nothing else stores anything. */
  lemma OtherStepKeeps(c: Config, v: seq<View>, n: World, u: Usb, offered: seq<byte>)
    requires ValidConfig(c) && InInv(c, v, n, offered) && !n.e.pc.In?
    ensures InInv(c, Extended(v, n, u), Next(c, n, EngineMoves(u)), offered)
  {
    if !Delivers(n.e, u) { GivenUp(c, v, n, u); }
    Transport.O2hEngineQuiet(c, n.sh, n.e, u);
    OtherPlaces(c, n.sh, n.e, u);
    hide EngineStep, O2hTransfer, WriteSpace;
  }

  lemma OtherPlaces(c: Config, sh: Shared, e: Engine, u: Usb)
    requires ValidConfig(c) && !e.pc.In?
    ensures var pc := EngineStep(c, sh, e, u).1.pc;
            if Delivers(e, u) && u.pick.DeliverIn? then pc.In? && pc.inPc == InDelivered(u.completed) else !pc.In?
  {
    hide Discard, FrameBytes, Read, Front, O2hTransfer, H2oTransfer, Zeros, Guarded, TopLeft, BootEntered, Level,
         Dll.OverbridgeInit, InStep;
  }

  lemma HostStoresNothing(c: Config, sh: Shared, h: HostThread, x: Input)
    requires ValidConfig(c)
    ensures HostStep(c, sh, h, x).0.o2h.accepted == sh.o2h.accepted
  {
    hide Cycle, Dll.HostReset, Write, WriteSpace, Front, Dll.CountFrames, Requests.Requested, Requests.Charged,
         Guarded, ClearRequested, Level, FrameBytes, Min;
  }

  lemma {:induction false} RunKeepsIn(c: Config, w: World, events: seq<Event>)
    requires ValidConfig(c) && Initial(c, w)
    ensures InInv(c, Views(c, w, events), Run(c, w, events), Offered(c, w, events))
  {
    if events != [] {
      var before, ev := events[..|events| - 1], events[|events| - 1];
      RunKeepsIn(c, w, before);
      var n, v := Run(c, w, before), Views(c, w, before);
      match ev {
        case EngineMoves(u) =>
          if n.e.pc.In? {
            InStores(c, v, n, u);
            InPlaces(c, v, n, u);
          } else {
            OtherStepKeeps(c, v, n, u, Offered(c, w, before));
          }
          hide Next;
        case HostMoves(x) =>
          HostStoresNothing(c, n.sh, n.h, x);
          hide HostStep;
        case _ =>
      }
      hide InStands, Storable, Extended;
    }
  }

  /** In every run the ring from the device has accepted exactly the samples, in order, of the transfers that came
      complete, found the option on and the engine running, and found room. */
  lemma AcceptedIsOffered(c: Config, w: World, events: seq<Event>)
    requires ValidConfig(c) && Initial(c, w)
    ensures Run(c, w, events).sh.o2h.accepted == Offered(c, w, events)
  {
    RunKeepsIn(c, w, events);
  }

  // ----- Transfers to the device -----

  /** Nothing has been decided since the delivery. */
  predicate Untouched(v: seq<View>, e: Engine, taken: seq<byte>)
    requires v != []
  {
    var was := v[0].w;
    e.reading == was.e.reading && e.outBuf == was.e.outBuf && taken == was.sh.h2o.taken
  }

  /** Bytes of the ring have gone since the delivery. */
  predicate Took(v: seq<View>, taken: seq<byte>, n: nat)
    requires v != []
  {
    v[0].w.sh.h2o.taken <= taken && |taken| == |v[0].w.sh.h2o.taken| + n
  }

  /** An engine that was not reading starts to, and drops all frames that wait, exactly when a whole transfer waits
      and the engine then runs. It goes on sending what it had, which is silence. */
  predicate Starts(c: Config, v: seq<View>, e: Engine, taken: seq<byte>)
    requires ValidConfig(c) && |v| >= 3
  {
    var space := ReadSpace(v[2].w.sh.h2o);
    && e.outBuf == v[0].w.e.outBuf
    && (space >= H2oTransfer(c) ==> |v| >= 4)
    && (e.reading <==> space >= H2oTransfer(c) && v[3].w.sh.status == EsRun)
    && Took(v, taken, if e.reading then FrameBytes(space, c.usbFrame) else 0)
  }

  /** An engine that was reading sends the next transfer, if it waits; else all the frames that wait, stretched, if
      there are at least two; else silence. */
  predicate Sends(c: Config, v: seq<View>, e: Engine, taken: seq<byte>)
    requires ValidConfig(c) && |v| >= 3
  {
    var space := ReadSpace(v[2].w.sh.h2o);
    && e.reading && |v| >= 4
    && if space >= H2oTransfer(c) then
         Took(v, taken, H2oTransfer(c)) && e.outBuf == taken[|taken| - H2oTransfer(c)..]
       else if space > c.usbFrame then
         Took(v, taken, FrameBytes(space, c.usbFrame)) && e.outBuf == v[3].u.resampled
       else
         Took(v, taken, 0) && e.outBuf == Zeros(H2oTransfer(c))
  }

  /** With the option off it stops reading, and sends silence if it was. */
  predicate Mutes(c: Config, v: seq<View>, e: Engine, taken: seq<byte>)
    requires v != []
  {
    var was := v[0].w.e;
    !e.reading && Took(v, taken, 0) && e.outBuf == if was.reading then Zeros(H2oTransfer(c)) else was.outBuf
  }

  /** All that the callback does, given what it has seen: whether the option was on, how much waited, and whether the
      engine was running. */
  predicate Answered(c: Config, v: seq<View>, e: Engine, taken: seq<byte>)
    requires ValidConfig(c)
  {
    && |v| >= 2
    && if !v[1].w.sh.h2oOption then Mutes(c, v, e, taken)
       else |v| >= 3 && if v[0].w.e.reading then Sends(c, v, e, taken) else Starts(c, v, e, taken)
  }

  /** The blocks of the transfer have just been written. */
  predicate Wrote(v: seq<View>)
    requires v != []
  {
    v[|v| - 1].w.e.pc.Out? && v[|v| - 1].w.e.pc.outPc.OutBlocks?
  }

  predicate OutStands(c: Config, v: seq<View>, e: Engine, taken: seq<byte>)
    requires ValidConfig(c)
  {
    e.pc.Out? ==>
      && v != [] && v[0].u.pick.DeliverOut?
      && match e.pc.outPc
         case OutDelivered => |v| == 1 && Untouched(v, e, taken)
         case OutMute => |v| == 2 && Untouched(v, e, taken) && !v[1].w.sh.h2oOption && e.reading
         case OutUnflag =>
           |v| == 3 && !v[1].w.sh.h2oOption && v[0].w.e.reading && Took(v, taken, 0)
           && e.outBuf == Zeros(H2oTransfer(c))
         case OutSpace => |v| == 2 && Untouched(v, e, taken) && v[1].w.sh.h2oOption
         case OutTestRun(space) =>
           |v| == 3 && Untouched(v, e, taken) && v[1].w.sh.h2oOption && !e.reading
           && H2oTransfer(c) <= space == ReadSpace(v[2].w.sh.h2o)
         case OutEmpty(space) =>
           |v| == 4 && Untouched(v, e, taken) && v[1].w.sh.h2oOption && !e.reading
           && H2oTransfer(c) <= space == ReadSpace(v[2].w.sh.h2o) && v[3].w.sh.status == EsRun
         case OutFetch(space) =>
           |v| == 3 && Untouched(v, e, taken) && v[1].w.sh.h2oOption && e.reading && space == ReadSpace(v[2].w.sh.h2o)
         case OutBlocks => Answered(c, v, e, taken) && (v[1].w.sh.h2oOption || v[0].w.e.reading)
         case OutRecheck => Answered(c, v, e, taken) && (Wrote(v) <==> v[1].w.sh.h2oOption || v[0].w.e.reading)
         case OutSubmit => Answered(c, v, e, taken)
  }

  /** What has been seen to wait is still there. */
  lemma TakesFront(r: Ring, n: nat)
    requires n <= ReadSpace(r)
    ensures Discard(r, n).taken == Read(r, n).taken == r.taken + Front(r, n) && |Front(r, n)| == n
  {
  }

  /** The views after one more still show what they did. */
  lemma StillAnswered(c: Config, v: seq<View>, n: World, u: Usb, taken: seq<byte>)
    requires ValidConfig(c) && v != [] && !Delivers(n.e, u) && Answered(c, v, n.e, taken)
    ensures Answered(c, Extended(v, n, u), n.e, taken)
  {
    Earlier(v, n, u);
    hide Extended, Delivers, ReadSpace, H2oTransfer, FrameBytes, Zeros;
  }

  /** The steps that look: at the option, at the space, at the status. */
  lemma OutLooks(c: Config, v: seq<View>, n: World, u: Usb)
    requires ValidConfig(c) && OutStands(c, v, n.e, n.sh.h2o.taken) && n.e.pc.Out?
    requires n.e.pc.outPc.OutDelivered? || n.e.pc.outPc.OutSpace? || n.e.pc.outPc.OutTestRun?
    ensures var m := Next(c, n, EngineMoves(u)); OutStands(c, Extended(v, n, u), m.e, m.sh.h2o.taken)
  {
    Earlier(v, n, u);
    hide Extended, ReadSpace, H2oTransfer, FrameBytes, Zeros, Discard, Read, Front, Level;
  }

  /** The steps that act: muting, emptying and fetching. */
  lemma OutActs(c: Config, v: seq<View>, n: World, u: Usb)
    requires ValidConfig(c) && OutStands(c, v, n.e, n.sh.h2o.taken) && n.e.pc.Out?
    requires Transport.H2oClaim(n.e.pc) <= ReadSpace(n.sh.h2o)
    requires n.e.pc.outPc.OutMute? || n.e.pc.outPc.OutUnflag? || n.e.pc.outPc.OutEmpty?
    ensures var m := Next(c, n, EngineMoves(u)); OutStands(c, Extended(v, n, u), m.e, m.sh.h2o.taken)
  {
    Earlier(v, n, u);
    if n.e.pc.outPc.OutEmpty? { TakesFront(n.sh.h2o, FrameBytes(n.e.pc.outPc.space, c.usbFrame)); }
    hide Extended, ReadSpace, H2oTransfer, FrameBytes, Zeros, Discard, Read, Front, Level;
  }

  lemma OutFetches(c: Config, v: seq<View>, n: World, u: Usb)
    requires ValidConfig(c) && OutStands(c, v, n.e, n.sh.h2o.taken) && n.e.pc.Out? && n.e.pc.outPc.OutFetch?
    requires n.e.pc.outPc.space <= ReadSpace(n.sh.h2o)
    ensures var m := Next(c, n, EngineMoves(u)); OutStands(c, Extended(v, n, u), m.e, m.sh.h2o.taken)
  {
    Earlier(v, n, u);
    var space := n.e.pc.outPc.space;
    if space >= H2oTransfer(c) { TakesFront(n.sh.h2o, H2oTransfer(c)); }
    else if space > c.usbFrame { TakesFront(n.sh.h2o, FrameBytes(space, c.usbFrame)); }
    hide Extended, ReadSpace, H2oTransfer, FrameBytes, Zeros, Discard, Read, Front, Level;
  }

  lemma EndPlaces(c: Config, sh: Shared, e: Engine, u: Usb)
    requires ValidConfig(c) && e.pc.Out? && (e.pc.outPc.OutBlocks? || e.pc.outPc.OutRecheck? || e.pc.outPc.OutSubmit?)
    ensures var (sh', e') := EngineStep(c, sh, e, u);
            && sh'.h2o == sh.h2o && e'.reading == e.reading && e'.outBuf == e.outBuf
            && (e'.pc.Out? ==> (e.pc.outPc.OutBlocks? && e'.pc.outPc.OutRecheck?)
                               || (e.pc.outPc.OutRecheck? && e'.pc.outPc.OutSubmit?))
            && (e.pc.outPc.OutBlocks? ==> e'.pc.Out?)
  {
    hide Guarded, Level, H2oTransfer, Zeros, FrameBytes, Discard, Read, Front, InStep, MainStep;
  }

  /** The steps after that change nothing of it. */
  lemma OutEnds(c: Config, v: seq<View>, n: World, u: Usb)
    requires ValidConfig(c) && OutStands(c, v, n.e, n.sh.h2o.taken) && n.e.pc.Out?
    requires n.e.pc.outPc.OutBlocks? || n.e.pc.outPc.OutRecheck? || n.e.pc.outPc.OutSubmit?
    ensures var m := Next(c, n, EngineMoves(u)); OutStands(c, Extended(v, n, u), m.e, m.sh.h2o.taken)
  {
    assert !Delivers(n.e, u);
    Earlier(v, n, u);
    StillAnswered(c, v, n, u, n.sh.h2o.taken);
    EndPlaces(c, n.sh, n.e, u);
    hide EngineStep, Extended, Delivers, Sends, Starts, Mutes;
  }

  lemma OutStepKeeps(c: Config, v: seq<View>, n: World, u: Usb)
    requires ValidConfig(c) && OutStands(c, v, n.e, n.sh.h2o.taken) && n.e.pc.Out?
    requires Transport.H2oClaim(n.e.pc) <= ReadSpace(n.sh.h2o)
    ensures var m := Next(c, n, EngineMoves(u)); OutStands(c, Extended(v, n, u), m.e, m.sh.h2o.taken)
  {
    match n.e.pc.outPc {
      case OutDelivered => OutLooks(c, v, n, u);
      case OutSpace => OutLooks(c, v, n, u);
      case OutTestRun(_) => OutLooks(c, v, n, u);
      case OutMute => OutActs(c, v, n, u);
      case OutUnflag => OutActs(c, v, n, u);
      case OutEmpty(_) => OutActs(c, v, n, u);
      case OutFetch(_) => OutFetches(c, v, n, u);
      case _ => OutEnds(c, v, n, u);
    }
    hide Next, OutStands, Extended;
  }

  lemma OutDelivery(c: Config, sh: Shared, e: Engine, u: Usb)
    requires ValidConfig(c) && !e.pc.Out?
    ensures var (sh', e') := EngineStep(c, sh, e, u);
            if Delivers(e, u) && u.pick.DeliverOut? then
              e'.pc.Out? && e'.pc.outPc == OutDelivered && e'.reading == e.reading && e'.outBuf == e.outBuf
              && sh'.h2o == sh.h2o
            else !e'.pc.Out?
  {
    hide Discard, FrameBytes, Read, Front, Write, O2hTransfer, H2oTransfer, Zeros, Guarded, TopLeft, BootEntered, Level,
         Dll.OverbridgeInit, Dll.OverbridgeUpdate, OutStep;
  }

  lemma HostTakesNothing(c: Config, sh: Shared, h: HostThread, x: Input)
    requires ValidConfig(c)
    ensures HostStep(c, sh, h, x).0.h2o.taken == sh.h2o.taken
  {
    hide Cycle, Dll.HostReset, WriteSpace, Front, Dll.CountFrames, Requests.Requested, Requests.Charged,
         Guarded, ClearRequested, Level, FrameBytes, Min;
  }

  lemma {:induction false} RunKeepsOut(c: Config, w: World, events: seq<Event>)
    requires ValidConfig(c) && Initial(c, w) && ValidEvents(c, events)
    ensures var n := Run(c, w, events); OutStands(c, Views(c, w, events), n.e, n.sh.h2o.taken)
  {
    if events != [] {
      var before, ev := events[..|events| - 1], events[|events| - 1];
      RunKeepsOut(c, w, before);
      Transport.RunKeepsInv(c, w, before);
      var n, v := Run(c, w, before), Views(c, w, before);
      match ev {
        case EngineMoves(u) =>
          assert Transport.H2oClaim(n.e.pc) <= ReadSpace(n.sh.h2o);
          if n.e.pc.Out? { OutStepKeeps(c, v, n, u); hide EngineStep, OutStands; }
          else { OutDelivery(c, n.sh, n.e, u); hide EngineStep; }
        case HostMoves(x) =>
          HostTakesNothing(c, n.sh, n.h, x);
          hide HostStep, OutStands;
        case _ =>
      }
    }
  }

  /** In every run, whenever a callback has prepared its transfer to the device: what it did with the option, the
      frames and the status that it found, and that the blocks were written unless there was nothing to change. */
  lemma EveryRequestIsAnswered(c: Config, w: World, events: seq<Event>)
    requires ValidConfig(c) && Initial(c, w) && ValidEvents(c, events)
    ensures var n, v := Run(c, w, events), Views(c, w, events);
            n.e.pc.Out? && n.e.pc.outPc.OutRecheck? ==>
              && v != [] && v[0].u.pick.DeliverOut? && Answered(c, v, n.e, n.sh.h2o.taken)
              && (Wrote(v) <==> v[1].w.sh.h2oOption || v[0].w.e.reading)
  {
    RunKeepsOut(c, w, events);
    hide Run, Views, Initial, ValidEvents, Sends, Starts, Mutes;
  }
}
