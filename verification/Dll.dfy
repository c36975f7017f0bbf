/** The delay-locked loop of src/dll.c. The `Overbridge` side filters the arrival times of
    the USB transfers; the `Host` side turns them into a resampling ratio.

    The functions give the meaning of each operation on values; the classes at the end are
    the operations as the source has them, updating their fields in place. Doubles are reals. */
module Dll {
  import opened Words
  import opened Reals

  const CLOCK_SPAN: nat := 0x1000_0000          // microseconds kept from a time stamp: 28 bits
  const QUANTUM: real := 268.435456             // the same, in seconds
  const MODTIME_THRESHOLD: real := 200.0
  const MAX_RATIO_ERROR: real := 2.0
  const PI: real := 3.14159265358979323846
  const OB_SAMPLE_RATE: real := 48000.0

  /** A point of the line that maps device time to device frames. */
  datatype Instant = Instant(time: real, frames: int)

  datatype Overbridge = Overbridge(i0: Instant, i1: Instant, dt: real, w1: real, w2: real, boot: bool)

  datatype Host = Host(ratio: real, maxRatio: real, minRatio: real, frames: int,
                       w0: real, w1: real, w2: real, targetDelay: int32,
                       z1: real, z2: real, z3: real, err: real,
                       i0: Instant, i1: Instant, boot: bool)

  /** Seconds, from the lowest 28 bits of a microsecond clock. */
  function WallClock(t: nat): real {
    (t % CLOCK_SPAN) as real / 1000000.0
  }

  function WrapTime(d: real, q: real): real {
    var up := if d < -MODTIME_THRESHOLD then d + q else d;
    if up > MODTIME_THRESHOLD then up - q else up
  }

  // ----- Overbridge side -----

  function OverbridgeInit(o: Overbridge, samplerate: real, frames: nat): Overbridge
    requires samplerate != 0.0
  {
    var dt := frames as real / samplerate;
    var w := 2.0 * PI * 0.1 * dt;
    o.(dt := dt, w1 := 1.6 * w, w2 := w * w)
  }

  /** The first arrival after a reset restarts the line at that arrival. */
  function Booted(o: Overbridge, frames: nat, time: real): Overbridge {
    if o.boot then
      o.(i0 := Instant(time, 0), i1 := Instant(time + o.dt, frames), boot := false)
    else
      o
  }

  /** When the 28-bit clock has started over, the expected time is brought back too. */
  function Unwrapped(o: Overbridge, time: real): Overbridge {
    if time - o.i1.time < -MODTIME_THRESHOLD then
      o.(i1 := o.i1.(time := o.i1.time - QUANTUM))
    else
      o
  }

  /** One step of the second-order filter with error `err`. */
  function Advance(o: Overbridge, frames: uint32, err: real): Overbridge {
    o.(i0 := o.i1,
       i1 := Instant(o.i1.time + (Product(o.w1, err) + o.dt), U32(o.i1.frames + frames)),
       dt := o.dt + Product(o.w2, err))
  }

  function ArrivalError(o: Overbridge, frames: uint32, t: nat): real {
    WallClock(t) - Unwrapped(Booted(o, frames, WallClock(t)), WallClock(t)).i1.time
  }

  function OverbridgeUpdate(o: Overbridge, frames: uint32, t: nat): Overbridge {
    var ready := Unwrapped(Booted(o, frames, WallClock(t)), WallClock(t));
    Advance(ready, frames, ArrivalError(o, frames, t))
  }

  // ----- Host side -----

  function HostInit(h: Host): Host {
    h.(boot := true)
  }

  /** The conversion of -input_frames / ratio to uint32_t. The minus is unsigned: it gives 2^32 - input_frames.
      For a ratio below 1 the quotient can be too large; then C leaves the value undefined, and it is a
      parameter. */
  function Counter(inputFrames: nat, ratio: real, undefined: uint32): uint32 {
    if ratio == 0.0 then undefined
    else
      var x := U32(0 - inputFrames) as real / ratio;
      if -1.0 < x < TWO32 as real then Trunc(x) else undefined
  }

  function HostReset(h: Host, outputRate: real, inputRate: real, outputFrames: nat, inputFrames: nat,
                     undefined: uint32): Host
    requires inputRate != 0.0
  {
    var ratio := outputRate / inputRate;
    h.(z1 := 0.0, z2 := 0.0, z3 := 0.0,
       ratio := ratio, maxRatio := ratio * MAX_RATIO_ERROR, minRatio := ratio / MAX_RATIO_ERROR,
       frames := Counter(inputFrames, ratio, undefined),
       targetDelay := ToInt(Trunc(2.0 * inputFrames as real + 1.5 * outputFrames as real)))
  }

  /** `decay` stands for 1 - exp(-w). */
  function HostSetLoopFilter(h: Host, bw: real, outputFrames: nat, outputRate: real, decay: real): Host
    requires outputRate != 0.0
  {
    var w := 2.0 * PI * bw * h.ratio / outputRate;
    h.(w0 := decay, w1 := w * 1.6, w2 := w * outputFrames as real / 1.6)
  }

  function LoadOverbridge(h: Host, o: Overbridge): Host {
    h.(i0 := o.i0, i1 := o.i1)
  }

  function HostOffset(h: Host, t: nat): real {
    WrapTime(WallClock(t) - h.i0.time, QUANTUM)
  }

  function HostSpan(h: Host): real {
    WrapTime(h.i1.time - h.i0.time, QUANTUM)
  }

  /** Frames that arrived from the device and have not been read yet, as a signed 32-bit number. */
  function Backlog(h: Host): int32 {
    I32(h.i0.frames - h.frames)
  }

  function Proportion(frames: int, part: real, whole: real): real
    requires whole != 0.0
  {
    frames as real * part / whole
  }

  /** Frames the device has produced since the last arrival, interpolated. The quotient is
      `undefined` before the device side has booted, when the span can be zero. */
  function Interpolated(h: Host, t: nat, undefined: real): real {
    if HostSpan(h) == 0.0 then undefined
    else Proportion(I32(h.i1.frames - h.i0.frames), HostOffset(h, t), HostSpan(h))
  }

  function RawError(h: Host, t: nat, undefined: real): real {
    Backlog(h) as real + Interpolated(h, t, undefined) - h.targetDelay as real
  }

  function Round(r: real): int {
    (r + 0.5).Floor
  }

  /** The first error after a reset is rounded into the frame counter. */
  function HostBoot(h: Host): Host {
    if h.boot then
      var n := ToInt(Round(h.err));
      h.(frames := U32(h.frames + n), err := h.err - n as real, boot := false)
    else
      h
  }

  function HostUpdateError(h: Host, t: nat, undefined: real): Host {
    HostBoot(h.(err := RawError(h, t, undefined)))
  }

  /** One step of a first-order filter. */
  function Toward(z: real, w: real, target: real): real {
    z + w * (target - z)
  }

  /** Three stages: two that smooth the error, and one that sums it up. */
  function HostFilter(h: Host): Host {
    var z1 := Toward(h.z1, h.w0, Product(h.w1, h.err));
    var z2 := Toward(h.z2, h.w0, z1);
    var z3 := h.z3 + Product(h.w2, z2);
    h.(z1 := z1, z2 := z2, z3 := z3, ratio := 1.0 - z2 - z3)
  }

  function Clamped(h: Host): Host {
    if h.ratio > h.maxRatio then h.(ratio := h.maxRatio)
    else if h.ratio < h.minRatio then h.(ratio := h.minRatio)
    else h
  }

  function HostUpdate(h: Host): Host {
    Clamped(HostFilter(h))
  }

  /** The value returned by ow_dll_host_update: the ratio had to be clamped. */
  predicate HostClamps(h: Host) {
    var f := HostFilter(h);
    f.ratio > f.maxRatio || f.ratio < f.minRatio
  }

  /** Frames handed to the resampler are counted as read. */
  function CountFrames(h: Host, frames: nat): Host {
    h.(frames := U32(h.frames + frames))
  }

  /** The error passes through the integer function abs() before it is compared. */
  predicate Tuned(h: Host, threshold: real) {
    Abs(ToInt(Trunc(h.err))) as real < threshold
  }

  // ----- The operations in the source's form -----

  class OverbridgeSide {
    var i0Time: real
    var i0Frames: uint32
    var i1Time: real
    var i1Frames: uint32
    var dt: real
    var w1: real
    var w2: real
    var boot: bool

    function State(): Overbridge
      reads this
    {
      Overbridge(Instant(i0Time, i0Frames), Instant(i1Time, i1Frames), dt, w1, w2, boot)
    }

    method Init(samplerate: real, frames: nat)
      requires samplerate != 0.0
      modifies this
      ensures State() == OverbridgeInit(old(State()), samplerate, frames)
    {
      dt := frames as real / samplerate;
      var w := 2.0 * PI * 0.1 * dt;
      w1 := 1.6 * w;
      w2 := w * w;
    }

    method Update(frames: uint32, t: nat)
      modifies this
      ensures State() == OverbridgeUpdate(old(State()), frames, t)
    {
      var time := WallClock(t);

      if boot {
        i0Time := time;
        i1Time := i0Time + dt;
        i0Frames := 0;
        i1Frames := frames;
        boot := false;
      }

      var err := time - i1Time;
      if err < -MODTIME_THRESHOLD {
        i1Time := i1Time - QUANTUM;
        err := time - i1Time;
      }

      i0Time := i1Time;
      i1Time := i1Time + (w1 * err + dt);
      dt := dt + w2 * err;

      i0Frames := i1Frames;
      i1Frames := U32(i1Frames + frames);
    }
  }

  class HostSide {
    const overbridge: OverbridgeSide
    var ratio: real
    var maxRatio: real
    var minRatio: real
    var frames: uint32
    var w0: real
    var w1: real
    var w2: real
    var targetDelay: int32
    var z1: real
    var z2: real
    var z3: real
    var err: real
    var i0: Instant
    var i1: Instant
    var boot: bool

    function State(): Host
      reads this
    {
      Host(ratio, maxRatio, minRatio, frames, w0, w1, w2, targetDelay, z1, z2, z3, err, i0, i1, boot)
    }

    /** Both sides have to boot; every other field keeps whatever the memory held. */
    constructor (overbridge: OverbridgeSide)
      modifies overbridge
      ensures this.overbridge == overbridge && boot
      ensures overbridge.State() == old(overbridge.State()).(boot := true)
    {
      this.overbridge := overbridge;
      boot := true;
      new;
      overbridge.boot := true;
    }

    method Init()
      modifies this, overbridge
      ensures State() == HostInit(old(State()))
      ensures overbridge.State() == old(overbridge.State()).(boot := true)
    {
      boot := true;
      overbridge.boot := true;
    }

    method Reset(outputRate: real, inputRate: real, outputFrames: nat, inputFrames: nat, undefined: uint32)
      requires inputRate != 0.0
      modifies this
      ensures State() == HostReset(old(State()), outputRate, inputRate, outputFrames, inputFrames, undefined)
    {
      z1 := 0.0;
      z2 := 0.0;
      z3 := 0.0;

      ratio := outputRate / inputRate;
      maxRatio := ratio * MAX_RATIO_ERROR;
      minRatio := ratio / MAX_RATIO_ERROR;

      frames := Counter(inputFrames, ratio, undefined);

      targetDelay := ToInt(Trunc(2.0 * inputFrames as real + 1.5 * outputFrames as real));
    }

    method LoadFromOverbridge()
      modifies this
      ensures State() == LoadOverbridge(old(State()), overbridge.State())
    {
      i0 := Instant(overbridge.i0Time, overbridge.i0Frames);
      i1 := Instant(overbridge.i1Time, overbridge.i1Frames);
    }

    /** Before the device side has booted the two loaded points may have the same time; then the quotient is
        `undefined`. */
    method UpdateError(t: nat, undefined: real)
      modifies this
      ensures State() == HostUpdateError(old(State()), t, undefined)
    {
      ghost var before := State();
      var time := WallClock(t);
      var deltaFramesExp := I32(i1.frames - i0.frames);
      var dn := WrapTime(time - i0.time, QUANTUM);
      var dd := WrapTime(i1.time - i0.time, QUANTUM);
      var deltaOverbridge := if dd == 0.0 then undefined else Proportion(deltaFramesExp, dn, dd);
      var deltaFramesAct := I32(i0.frames - frames);
      err := deltaFramesAct as real + deltaOverbridge - targetDelay as real;
      assert err == RawError(before, t, undefined);

      if boot {
        var n := ToInt((err + 0.5).Floor);
        frames := U32(frames + n);
        err := err - n as real;
        boot := false;
      }
    }

    method Update() returns (clamped: bool)
      modifies this
      ensures State() == HostUpdate(old(State()))
      ensures clamped == HostClamps(old(State()))
    {
      clamped := false;
      z1 := z1 + w0 * (w1 * err - z1);
      z2 := z2 + w0 * (z1 - z2);
      z3 := z3 + w2 * z2;
      ratio := 1.0 - z2 - z3;
      if ratio > maxRatio {
        clamped := true;
        ratio := maxRatio;
      } else if ratio < minRatio {
        ratio := minRatio;
        clamped := true;
      }
    }
  }

  // ----- What single operations promise -----

  /** Both thresholds used by the resampler mean the same: less than one frame of error. */
  lemma TunedMeansBelowOneFrame(h: Host, threshold: real)
    requires 0.0 < threshold <= 1.0
    ensures Tuned(h, threshold) <==> -1.0 < h.err < 1.0
  {
    var a := Abs(ToInt(Trunc(h.err)));
    assert a as real < threshold <==> a == 0;
  }

  /** From a ratio of 1 on the counter is defined, and at 1 it is the negated frames modulo 2^32. */
  lemma CounterIsDefined(inputFrames: nat, ratio: real, undefined: uint32, other: uint32)
    requires ratio >= 1.0
    ensures Counter(inputFrames, ratio, undefined) == Counter(inputFrames, ratio, other)
    ensures Counter(inputFrames, 1.0, undefined) == U32(0 - inputFrames)
    ensures U32(0 - inputFrames) as real / ratio - 1.0 < Counter(inputFrames, ratio, undefined) as real
            <= U32(0 - inputFrames) as real / ratio
  {
    var n := U32(0 - inputFrames) as real;
    hide U32;
    QuotientShrinks(n, ratio);
  }

  lemma QuotientShrinks(n: real, ratio: real)
    requires n >= 0.0 && ratio >= 1.0
    ensures 0.0 <= n / ratio <= n && n / 1.0 == n
  {
    var q := n / ratio;
    assert q * ratio == n;
    if q < 0.0 { PositiveProduct(-q, ratio, -n); }
    NonNegativeProduct(q, ratio - 1.0);
  }

  /** The ratio never leaves its range, and a clamp is reported exactly when the filter's
      own value was outside. */
  lemma RatioStaysInRange(h: Host)
    requires h.minRatio <= h.maxRatio
    ensures h.minRatio <= HostUpdate(h).ratio <= h.maxRatio
    ensures HostClamps(h) <==> HostUpdate(h).ratio != HostFilter(h).ratio
    ensures HostUpdate(h).maxRatio == h.maxRatio && HostUpdate(h).minRatio == h.minRatio
  {
  }
}
