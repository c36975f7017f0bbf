/** How many frames ow_resampler_write_audio asks the resampler for in every cycle. */
module Requests {
  import opened Words
  import opened Reals

  /** The frames gained or lost by the ratio since the last whole frame. */
  function Accumulated(acc: real, bufsize: nat, ratio: real): real {
    acc + bufsize as real * (ratio - 1.0)
  }

  function Requested(acc: real, bufsize: nat, ratio: real): int {
    bufsize + Trunc(Accumulated(acc, bufsize, ratio))
  }

  function Remainder(acc: real, bufsize: nat, ratio: real): real {
    Accumulated(acc, bufsize, ratio) - Trunc(Accumulated(acc, bufsize, ratio)) as real
  }

  class FrameAccumulator {
    var acc: real

    constructor ()
      ensures acc == 0.0
    {
      acc := 0.0;
    }

    method Request(bufsize: nat, ratio: real) returns (frames: int)
      modifies this
      ensures frames == Requested(old(acc), bufsize, ratio)
      ensures acc == Remainder(old(acc), bufsize, ratio)
    {
      acc := acc + bufsize as real * (ratio - 1.0);
      var inc := Trunc(acc);
      acc := acc - inc as real;
      frames := bufsize + inc;
    }
  }

  datatype Period = Period(bufsize: nat, ratio: real)

  /** The accumulator, the frames requested and the frames due after a sequence of cycles. */
  datatype Account = Account(acc: real, asked: int, due: real)

  function After(cycles: seq<Period>): Account {
    if cycles == [] then Account(0.0, 0, 0.0)
    else Charged(After(cycles[..|cycles| - 1]), cycles[|cycles| - 1])
  }

  function Charged(a: Account, c: Period): Account {
    Account(Remainder(a.acc, c.bufsize, c.ratio),
            a.asked + Requested(a.acc, c.bufsize, c.ratio),
            a.due + c.bufsize as real * c.ratio)
  }

  /** The requests and the fraction kept back always add up to the frames due. */
  predicate Balanced(a: Account) {
    && -1.0 < a.acc < 1.0
    && a.asked as real + a.acc == a.due
  }

  lemma ChargeKeepsBalance(a: Account, c: Period)
    requires Balanced(a)
    ensures Balanced(Charged(a, c))
  {
    var x := Accumulated(a.acc, c.bufsize, c.ratio);
    assert x == a.acc + c.bufsize as real * c.ratio - c.bufsize as real;
    assert -1.0 < x - Trunc(x) as real < 1.0;
  }

  /** After any sequence of cycles less than one frame is owed or ahead. */
  lemma {:induction false} RequestsFollowRatio(cycles: seq<Period>)
    ensures Balanced(After(cycles))
    ensures -1.0 < After(cycles).asked as real - After(cycles).due < 1.0
  {
    if cycles != [] {
      RequestsFollowRatio(cycles[..|cycles| - 1]);
      ChargeKeepsBalance(After(cycles[..|cycles| - 1]), cycles[|cycles| - 1]);
    }
  }

  /** No request is negative, and none exceeds `scale` buffers when no ratio does. */
  lemma RequestBounds(acc: real, bufsize: nat, ratio: real, scale: nat)
    requires -1.0 < acc < 1.0 && 0.0 < ratio <= scale as real
    ensures 0 <= Requested(acc, bufsize, ratio) <= scale * bufsize
  {
    var x, b := Accumulated(acc, bufsize, ratio), bufsize as real;
    NonNegativeProduct(b, ratio);
    NonNegativeProduct(b, scale as real - ratio);
    assert b * scale as real == (scale * bufsize) as real;
    assert b * (ratio - 1.0) == b * ratio - b;
    var n: int := bufsize;
    assert scale >= 1;
    assert (scale - 1) * n >= 0;
    TruncBetween(x, -n, scale * n - n);
  }

  lemma RequestIsNotNegative(acc: real, bufsize: nat, ratio: real)
    requires -1.0 < acc < 1.0 && 0.0 < ratio
    ensures Requested(acc, bufsize, ratio) >= 0
  {
    RequestBounds(acc, bufsize, ratio, ratio.Floor + 1);
  }

  lemma TruncBetween(x: real, lo: int, hi: int)
    requires lo as real - 1.0 < x < hi as real + 1.0 && lo <= 0 <= hi
    ensures lo <= Trunc(x) <= hi
  {
  }

  // ----- The room of the output buffer -----

  /** The buffer holds eight times the frames of a cycle. */
  const BUFFER_SCALE: nat := 8

  /** A ratio to the device, given the clamp of the DLL around samplerate / 48000. */
  predicate InClampRange(h2oRatio: real, samplerate: real)
    requires samplerate > 0.0
  {
    0.0 < h2oRatio <= 2.0 * 48000.0 / samplerate
  }

  lemma ClampAtLowRate(samplerate: real)
    requires samplerate > 0.0
    ensures 2.0 * 48000.0 / samplerate <= 8.0 <==> samplerate >= 12000.0
  {
    var q := 2.0 * 48000.0 / samplerate;
    assert q * samplerate == 96000.0;
  }

  /** Every request that the clamp allows fits the buffer, exactly from a JACK rate of 12 kHz on. */
  lemma RequestsFitBuffer(samplerate: real)
    requires samplerate > 0.0
    ensures (forall acc: real, bufsize: nat, ratio: real ::
               -1.0 < acc < 1.0 && InClampRange(ratio, samplerate)
               ==> Requested(acc, bufsize, ratio) <= BUFFER_SCALE * bufsize)
            <==> samplerate >= 12000.0
  {
    ClampAtLowRate(samplerate);
    var top := 2.0 * 48000.0 / samplerate;
    if samplerate >= 12000.0 {
      forall acc: real, bufsize: nat, ratio: real | -1.0 < acc < 1.0 && InClampRange(ratio, samplerate)
        ensures Requested(acc, bufsize, ratio) <= BUFFER_SCALE * bufsize
      {
        RequestBounds(acc, bufsize, ratio, BUFFER_SCALE);
      }
    } else {
      var bufsize := OverflowingBuffer(top);
      assert InClampRange(top, samplerate);
      assert Requested(0.0, bufsize, top) > BUFFER_SCALE * bufsize;
    }
  }

  lemma OverflowingBuffer(ratio: real) returns (bufsize: nat)
    requires ratio > 8.0
    ensures Requested(0.0, bufsize, ratio) > 8 * bufsize
  {
    var gap := ratio - 8.0;
    var need := 1.0 / gap;
    assert need * gap == 1.0;
    assert need > 0.0;
    bufsize := need.Floor + 1;
    var b := bufsize as real;
    NonNegativeProduct(b - need, gap);
    assert b * gap >= need * gap;
    assert b * (ratio - 1.0) == b * gap + 7.0 * b;
    assert Accumulated(0.0, bufsize, ratio) >= 7.0 * b + 1.0;
  }
}
