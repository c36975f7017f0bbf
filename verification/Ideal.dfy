/** The same loop on a clock and counters that never wrap: what the code of src/dll.c stands for. */
module Ideal {
  import opened Reals
  import opened Dll

  /** How late the transfer is compared with the prediction. */
  function Lateness(o: Overbridge, frames: nat, time: real): real {
    time - Booted(o, frames, time).i1.time
  }

  function Arrive(o: Overbridge, frames: nat, time: real): Overbridge {
    var b := Booted(o, frames, time);
    var e := Lateness(o, frames, time);
    b.(i0 := b.i1,
       i1 := Instant(b.i1.time + (Product(b.w1, e) + b.dt), b.i1.frames + frames),
       dt := b.dt + Product(b.w2, e))
  }

  /** The line after every arrival of `times`, in order. */
  function ArriveAll(o: Overbridge, frames: nat, times: seq<real>): Overbridge {
    if times == [] then o
    else Arrive(ArriveAll(o, frames, times[..|times| - 1]), frames, times[|times| - 1])
  }

  function Error(h: Host, time: real): real
    requires h.i1.time != h.i0.time
  {
    (h.i0.frames - h.frames) as real
    + Proportion(h.i1.frames - h.i0.frames, time - h.i0.time, h.i1.time - h.i0.time)
    - h.targetDelay as real
  }

  function Boot(h: Host): Host {
    if h.boot then
      h.(frames := h.frames + Round(h.err), err := h.err - Round(h.err) as real, boot := false)
    else
      h
  }

  function UpdateError(h: Host, time: real): Host
    requires h.i1.time != h.i0.time
  {
    Boot(h.(err := Error(h, time)))
  }

  /** The mean of what a stage holds and what it hears, weighted by w. */
  function Mean(held: real, w: real, heard: real): real {
    Product(1.0 - w, held) + Product(w, heard)
  }

  function Limited(x: real, least: real, most: real): real {
    if x > most then most else if x < least then least else x
  }

  /** Two stages that average the error in proportion, and one that sums their mean up; the ratio is what is
      missing from 1, within its limits. */
  function Correct(h: Host): Host {
    var z1 := Mean(h.z1, h.w0, Product(h.w1, h.err));
    var z2 := Mean(h.z2, h.w0, z1);
    var z3 := h.z3 + Product(h.w2, z2);
    h.(z1 := z1, z2 := z2, z3 := z3, ratio := Limited(1.0 - (z2 + z3), h.minRatio, h.maxRatio))
  }

  function Count(h: Host, frames: nat): Host {
    h.(frames := h.frames + frames)
  }
}
