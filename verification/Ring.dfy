/** A JACK ring buffer between one producer and one consumer, as a bounded FIFO of bytes. */
module Ring {
  import opened Words

  /** `accepted` and `taken` are the history: every byte the producer was told went in, and every
      byte the consumer took out or dropped. `broken` is set when the read pointer is moved past
      the write pointer, which the ring buffer does not check. */
  datatype Ring = Ring(capacity: nat, data: seq<byte>, accepted: seq<byte>, taken: seq<byte>, broken: bool)

  function Empty(capacity: nat): Ring {
    Ring(capacity, [], [], [], false)
  }

  function ReadSpace(r: Ring): nat {
    |r.data|
  }

  function WriteSpace(r: Ring): nat {
    if |r.data| <= r.capacity then r.capacity - |r.data| else 0
  }

  function Min(a: nat, b: nat): nat {
    if a < b then a else b
  }

  /** Stores what fits; the caller goes on as if everything did. */
  function Write(r: Ring, xs: seq<byte>): Ring {
    r.(data := r.data + xs[..Min(|xs|, WriteSpace(r))], accepted := r.accepted + xs)
  }

  /** The bytes that a read of n bytes delivers. */
  function Front(r: Ring, n: nat): seq<byte> {
    r.data[..Min(n, ReadSpace(r))]
  }

  function Read(r: Ring, n: nat): Ring {
    r.(data := r.data[Min(n, ReadSpace(r))..], taken := r.taken + Front(r, n))
  }

  /** Reading into a null pointer: the read pointer moves, unchecked. */
  function Discard(r: Ring, n: nat): Ring {
    if n <= ReadSpace(r) then Read(r, n) else r.(broken := true)
  }

  /** Nothing was lost, duplicated or reordered. */
  predicate Conserved(r: Ring) {
    && r.taken + r.data == r.accepted
    && |r.data| <= r.capacity
    && !r.broken
  }

  /** A whole number of frames of f bytes. */
  predicate Whole(n: nat, f: nat) {
    f > 0 && n % f == 0
  }

  /** ow_bytes_to_frame_bytes. */
  function FrameBytes(bytes: nat, frame: nat): (r: nat)
    requires frame > 0
    ensures r <= bytes
  {
    Split(bytes, frame);
    bytes / frame * frame
  }

  lemma Split(n: nat, f: nat)
    requires f > 0
    ensures 0 <= n / f * f <= n < n / f * f + f && n == n / f * f + n % f
  {
  }

  /** It is the largest whole number of frames that is not more. */
  lemma FrameBytesIsWhole(n: nat, f: nat)
    requires f > 0
    ensures Whole(FrameBytes(n, f), f) && n < FrameBytes(n, f) + f
  {
    Split(n, f);
    MultipleIsWhole(n / f, f);
  }

  lemma MultipleIsWhole(k: nat, f: nat)
    requires f > 0
    ensures Whole(k * f, f)
  {
    if k > 0 {
      MultipleIsWhole(k - 1, f);
      WholeSum((k - 1) * f, f, f);
      assert k * f == (k - 1) * f + f;
    }
  }

  lemma WholeSum(a: nat, b: nat, f: nat)
    requires Whole(a, f) && Whole(b, f)
    ensures Whole(a + b, f)
    ensures a >= b ==> Whole(a - b, f)
  {
    Split(a, f);
    Split(b, f);
    var x, y := a / f, b / f;
    assert a + b == (x + y) * f;
    QuotientOfMultiple(x + y, f);
    if a >= b {
      assert a - b == (x - y) * f;
      QuotientOfMultiple(x - y, f);
    }
  }

  lemma QuotientOfMultiple(k: int, f: nat)
    requires f > 0
    ensures (k * f) % f == 0
  {
    var n := k * f;
    assert n == n / f * f + n % f;
    var d := k - n / f;
    assert n % f == d * f;
  }

  lemma WholeThrough(n: nat, unit: nat, f: nat)
    requires Whole(n, unit) && Whole(unit, f)
    ensures Whole(n, f)
  {
    Split(n, unit);
    Split(unit, f);
    var k, m := n / unit, unit / f;
    assert n == (k * m) * f;
    QuotientOfMultiple(k * m, f);
  }

  // ----- The operations conserve what their callers checked for -----

  lemma WriteConserves(r: Ring, xs: seq<byte>)
    requires Conserved(r) && |xs| <= WriteSpace(r)
    ensures Conserved(Write(r, xs)) && Write(r, xs).data == r.data + xs
  {
    assert xs[..|xs|] == xs;
    assert r.taken + (r.data + xs) == (r.taken + r.data) + xs;
  }

  lemma ReadConserves(r: Ring, n: nat)
    requires Conserved(r) && n <= ReadSpace(r)
    ensures Conserved(Read(r, n)) && |Front(r, n)| == n && r.data == Front(r, n) + Read(r, n).data
    ensures Discard(r, n) == Read(r, n)
  {
    assert r.data[..n] + r.data[n..] == r.data;
    assert (r.taken + r.data[..n]) + r.data[n..] == r.taken + r.data;
  }

  /** When the consumer's idea of a frame is the one of the USB packets, dropping "whole frames" leaves
      whole float frames in every case exactly when the two sizes are equal: no track has 3 bytes. */
  lemma DiscardAlignment(usbFrame: nat, tracks: nat)
    requires tracks > 0 && 3 * tracks <= usbFrame <= 4 * tracks
    ensures (forall frames: nat :: Whole(frames * (4 * tracks) - FrameBytes(frames * (4 * tracks), usbFrame),
                                         4 * tracks))
            <==> usbFrame == 4 * tracks
  {
    var f := 4 * tracks;
    if usbFrame == f {
      forall frames: nat
        ensures Whole(frames * f - FrameBytes(frames * f, usbFrame), f)
      {
        MultipleIsWhole(frames, f);
        FrameBytesIsWhole(frames * f, f);
        WholeSum(frames * f, FrameBytes(frames * f, f), f);
      }
    } else {
      OneFrameMisaligns(f, usbFrame);
      assert 1 * f == f;
      assert !Whole(1 * f - FrameBytes(1 * f, usbFrame), f);
    }
  }

  lemma OneFrameMisaligns(f: nat, usbFrame: nat)
    requires 0 < usbFrame < f < 2 * usbFrame
    ensures f - FrameBytes(f, usbFrame) == f - usbFrame && !Whole(f - usbFrame, f)
  {
    QuotientOne(f, usbFrame);
  }

  lemma QuotientOne(n: nat, f: nat)
    requires 0 < f <= n < 2 * f
    ensures n / f == 1
  {
  }
}
