/** The engine's transfer buffers: ow_engine_init_mem and the two block loops of src/engine.c. */
module Codec {
  import opened Words
  import opened Spans
  import opened Samples
  import opened Blocks

  const HEADER: seq<byte> := [0x07, 0xff]

  class UsbBuffers {
    const outFormat: Format
    const inFormat: Format
    const blocks: nat
    const outData: array<byte>
    const inData: array<byte>
    const h2oBuf: array<int32>
    const o2hBuf: array<int32>
    var counter: uint16
    /** How many blocks have been written since the buffers were made. */
    ghost var written: nat

    ghost predicate Shaped() {
      && Sized(outFormat.tracks) && Sized(inFormat.tracks)
      && outData.Length == Start(blocks, BlockLen(outFormat))
      && h2oBuf.Length == Start(blocks, SamplesPerBlock(outFormat))
      && inData.Length == Start(blocks, BlockLen(inFormat)) && o2hBuf.Length == Start(blocks, SamplesPerBlock(inFormat))
      && (outData as object) != (h2oBuf as object) && (inData as object) != (o2hBuf as object)
      && (inData as object) != (h2oBuf as object) && outData != inData && h2oBuf != o2hBuf
    }

    /** The headers stand, the padding is empty, and the counter counts. */
    ghost predicate Valid()
      reads this, outData
    {
      Shaped() && Framed(outFormat, outData[..], blocks) && counter == Number(0, written)
    }

    /** ow_engine_init_mem. */
    constructor (type3: bool, inputs: seq<nat>, outputs: seq<nat>, blocks: nat)
      requires Sized(inputs) && Sized(outputs)
      ensures Valid() && written == 0
      ensures outFormat == Format(type3, inputs) && inFormat == Format(type3, outputs) && this.blocks == blocks
      ensures fresh(outData) && fresh(inData) && fresh(h2oBuf) && fresh(o2hBuf)
      ensures forall k :: 0 <= k < h2oBuf.Length ==> h2oBuf[k] == 0
    {
      outFormat, inFormat, this.blocks := Format(type3, inputs), Format(type3, outputs), blocks;
      counter, written := 0, 0;
      var outLen, inLen := BlockLen(Format(type3, inputs)), BlockLen(Format(type3, outputs));
      var outSamples, inSamples := SamplesPerBlock(Format(type3, inputs)), SamplesPerBlock(Format(type3, outputs));
      StartIsProduct(blocks, outLen);
      StartIsProduct(blocks, inLen);
      StartIsProduct(blocks, outSamples);
      StartIsProduct(blocks, inSamples);
      outData := new byte[blocks * outLen](_ => 0);
      inData := new byte[blocks * inLen](_ => 0);
      h2oBuf := new int32[blocks * outSamples](_ => 0);
      o2hBuf := new int32[blocks * inSamples](_ => 0);
      new;
      for i := 0 to blocks
        invariant Shaped() && counter == 0 && written == 0 && h2oBuf.Length == blocks * outSamples
        invariant forall k :: 0 <= k < h2oBuf.Length ==> h2oBuf[k] == 0
        invariant Framed(outFormat, outData[..], i)
        invariant forall k :: Start(i, outLen) <= k < outData.Length ==> outData[k] == 0
      {
        WriteHeader(i);
      }
    }

    method WriteHeader(i: nat)
      requires Shaped() && i < blocks && Framed(outFormat, outData[..], i)
      requires forall k :: Start(i, BlockLen(outFormat)) <= k < outData.Length ==> outData[k] == 0
      modifies outData
      ensures Framed(outFormat, outData[..], i + 1)
      ensures forall k :: Start(i + 1, BlockLen(outFormat)) <= k < outData.Length ==> outData[k] == 0
    {
      ghost var before := outData[..];
      StartGrows(i + 1, blocks, BlockLen(outFormat));
      StartIsProduct(i, BlockLen(outFormat));
      var at := i * BlockLen(outFormat);
      outData[at], outData[at + 1] := HEADER[0], HEADER[1];
      FramedExtends(outFormat, before, outData[..], i);
    }

    /** One sample into the packet. */
    method Put(s: nat, bs: seq<byte>)
      requires s + |bs| <= outData.Length
      modifies outData
      ensures var was := old(outData[..]);
              outData[..] == was[..s] + bs + was[s + |bs|..]
    {
      ghost var was := outData[..];
      for i := 0 to |bs|
        invariant outData[..] == was[..s] + bs[..i] + was[s + i..]
      {
        outData[s + i] := bs[i];
      }
    }

    /** One sample into the packet: shifted, swapped and copied. */
    method Store(s: nat, size: nat, sample: int32)
      requires TrackSize(size) && s + size <= outData.Length
      modifies outData
      ensures var was := old(outData[..]);
              outData[..] == was[..s] + Encode(outFormat.type3, size, sample) + was[s + size..]
    {
      var ov := sample;
      if outFormat.type3 && size == 4 {
        ov := Shifted(ov);
      }
      ov := Swap(ov);
      Put(s, Memory(ov)[..size]);
    }

    /** Sample n of a block. */
    method StoreNext(s: nat, size: nat, sample: int32, ghost base: seq<byte>, ghost sizes: seq<nat>,
                     ghost xs: seq<int32>, ghost d: nat, ghost n: nat)
      requires n < |sizes| <= |xs| && size == sizes[n] && sample == xs[n] && s + size <= outData.Length
      requires Stored(base, outData[..], outFormat.type3, sizes, xs, d, n, s)
      modifies outData
      ensures Stored(base, outData[..], outFormat.type3, sizes, xs, d, n + 1, s + size)
    {
      ghost var data := outData[..];
      Store(s, size, sample);
      StoredOne(base, data, outData[..], outFormat.type3, sizes, xs, d, n, s);
    }

    /** The frames of a block, from the samples at `from` on. */
    method WriteFrames(d: nat, from: nat) returns (f: nat)
      requires Shaped() && d + Total(Sizes(outFormat), |Sizes(outFormat)|) <= outData.Length
      requires from + SamplesPerBlock(outFormat) <= h2oBuf.Length
      modifies outData
      ensures f == from + SamplesPerBlock(outFormat)
      ensures Stored(old(outData[..]), outData[..], outFormat.type3, Sizes(outFormat), h2oBuf[from..f], d,
                     |Sizes(outFormat)|, d + Total(Sizes(outFormat), |Sizes(outFormat)|))
    {
      hide Payload, Encode, Block, BlockLen, Total, Start, Layout;
      FrameStarts(outFormat);
      ghost var base, sizes, xs := outData[..], Sizes(outFormat), h2oBuf[from..from + SamplesPerBlock(outFormat)];
      hide Sizes;
      ghost var n: nat := 0;
      var s: nat := d;
      f := from;
      NothingStored(base, outFormat.type3, sizes, xs, d);
      hide Stored;
      for j := 0 to FRAMES_PER_BLOCK
        invariant f == from + n && n == Start(j, |outFormat.tracks|) && n <= |sizes| && s == d + Total(sizes, n)
        invariant h2oBuf[from..from + SamplesPerBlock(outFormat)] == xs
        invariant Stored(base, outData[..], outFormat.type3, sizes, xs, d, n, s)
      {
        FrameFits(outFormat, j);
        s, f := WriteFrame(j, s, f, base, xs, d, from);
        n := n + |outFormat.tracks|;
      }
    }

    /** Frame j of a block. */
    method WriteFrame(j: nat, at: nat, first: nat, ghost base: seq<byte>, ghost xs: seq<int32>, ghost d: nat,
                      ghost from: nat)
      returns (s: nat, f: nat)
      requires Shaped() && j < FRAMES_PER_BLOCK && d + Total(Sizes(outFormat), |Sizes(outFormat)|) <= outData.Length
      requires from + SamplesPerBlock(outFormat) <= h2oBuf.Length
               && h2oBuf[from..from + SamplesPerBlock(outFormat)] == xs
      requires var n := Start(j, |outFormat.tracks|);
               && n <= |Sizes(outFormat)| && first == from + n && at == d + Total(Sizes(outFormat), n)
               && Stored(base, outData[..], outFormat.type3, Sizes(outFormat), xs, d, n, at)
      modifies outData
      ensures h2oBuf[from..from + SamplesPerBlock(outFormat)] == xs
      ensures var n := Start(j, |outFormat.tracks|) + |outFormat.tracks|;
              && n <= |Sizes(outFormat)| && f == from + n && s == d + Total(Sizes(outFormat), n)
              && Stored(base, outData[..], outFormat.type3, Sizes(outFormat), xs, d, n, s)
    {
      hide Payload, Encode, Block, BlockLen, Total, Start, Layout, Stored, Sizes;
      FrameFits(outFormat, j);
      ghost var sizes, n: nat := Sizes(outFormat), Start(j, |outFormat.tracks|);
      s, f := at, first;
      for k := 0 to |outFormat.tracks|
        invariant f == from + n && n == Start(j, |outFormat.tracks|) + k && n <= |sizes| && s == d + Total(sizes, n)
        invariant h2oBuf[from..from + SamplesPerBlock(outFormat)] == xs
        invariant Stored(base, outData[..], outFormat.type3, sizes, xs, d, n, s)
      {
        SampleFits(outFormat, j, k);
        assert h2oBuf[f] == xs[n];
        StoreNext(s, outFormat.tracks[k], h2oBuf[f], base, sizes, xs, d, n);
        s, f, n := s + outFormat.tracks[k], f + 1, n + 1;
      }
    }

    /** One block of the transfer. */
    method WriteBlock(at: nat, from: nat) returns (f: nat)
      requires Shaped() && at + BlockLen(outFormat) <= outData.Length
               && from + SamplesPerBlock(outFormat) <= h2oBuf.Length
      modifies this`counter, outData
      ensures f == from + SamplesPerBlock(outFormat)
      ensures counter == Number(old(counter), 1)
      ensures var was, end := old(outData[..]), at + BlockLen(outFormat);
              outData[..] == was[..at] + Block(outFormat, was[at..end], h2oBuf[from..f], old(counter)) + was[end..]
    {
      BlockHoldsItsSamples(outFormat);
      hide Payload, Block, Sizes, Total, Stored;
      ghost var before := outData[..];
      outData[at + 2], outData[at + 3] := counter / 256, counter % 256;
      counter := (counter + FRAMES_PER_BLOCK) % 0x1_0000;
      ghost var base := outData[..];
      f := WriteFrames(at + DATA, from);
      BlockStored(outFormat, before, base, outData[..], h2oBuf[from..f], old(counter), at, at + BlockLen(outFormat));
    }

    /** ow_engine_write_usb_output_blocks, without what it means for the headers. */
    method WriteBlocks()
      requires Shaped()
      modifies this`counter, outData
      ensures outData[..] == Image(outFormat, old(outData[..]), h2oBuf[..], old(counter), blocks)
      ensures counter == Number(old(counter), blocks)
    {
      ghost var was, xs := outData[..], h2oBuf[..];
      ImageStarts(outFormat, was, xs, counter);
      hide WrittenSoFar;
      var f := 0;
      for i := 0 to blocks
        invariant h2oBuf[..] == xs
        invariant WrittenSoFar(outFormat, was, xs, old(counter), i, f, outData[..], counter)
      {
        StartIsProduct(i, BlockLen(outFormat));
        f := WriteNth(i, i * BlockLen(outFormat), f, was, xs, old(counter));
      }
      ImageEnds(outFormat, was, xs, old(counter), blocks, f, outData[..], counter);
    }

    /** Block i of the transfer. */
    method WriteNth(i: nat, at: nat, from: nat, ghost was: seq<byte>, ghost xs: seq<int32>, ghost first: uint16)
      returns (f: nat)
      requires Shaped() && i < blocks && h2oBuf[..] == xs && at == Start(i, BlockLen(outFormat))
      requires WrittenSoFar(outFormat, was, xs, first, i, from, outData[..], counter)
      modifies this`counter, outData
      ensures h2oBuf[..] == xs
      ensures WrittenSoFar(outFormat, was, xs, first, i + 1, f, outData[..], counter)
    {
      hide Block, BlockLen, SamplesPerBlock, Start, Image, Number, WrittenSoFar, Total, Piece, Sized;
      ghost var data, now := outData[..], counter;
      WrittenShape(outFormat, was, xs, first, i, from, data, now);
      BlockFits(outFormat, i, blocks);
      f := WriteBlock(at, from);
      assert h2oBuf[..] == xs;
      assert h2oBuf[from..f] == xs[from..f];
      ImageExtends(outFormat, was, xs, first, i, from, data, now, outData[..]);
    }

    /** ow_engine_write_usb_output_blocks: the n-th block ever written carries 7n modulo 65536. */
    method WriteUsbOutputBlocks()
      requires Valid()
      modifies this`counter, this`written, outData
      ensures Valid()
      ensures outData[..] == Image(outFormat, old(outData[..]), h2oBuf[..], old(counter), blocks)
      ensures written == old(written) + blocks && counter == Number(0, written)
      ensures forall i: nat :: i < blocks ==>
                var n := Number(0, old(written) + i);
                HeaderByte(outFormat, outData[..], blocks, i, 2) == n / 256
                && HeaderByte(outFormat, outData[..], blocks, i, 3) == n % 256
    {
      hide Image, HeaderByte, Number, BlockLen;
      ghost var was := outData[..];
      WriteBlocks();
      written := written + blocks;
      NumbersContinue(0, old(written), blocks);
      FramedImage(outFormat, was, h2oBuf[..], old(counter), blocks);
      forall i: nat | i < blocks
        ensures Number(old(counter), i) == Number(0, old(written) + i)
      {
        NumbersContinue(0, old(written), i);
      }
    }

    /** The frames of a block, to the samples at `to` on. `hv` holds what the last copy left. */
    method ReadFrames(d: nat, to: nat, stale: int32) returns (f: nat, hv: int32)
      requires Shaped() && d + Total(Sizes(inFormat), |Sizes(inFormat)|) <= inData.Length
      requires to + SamplesPerBlock(inFormat) <= o2hBuf.Length
      modifies o2hBuf
      ensures f == to + SamplesPerBlock(inFormat)
      ensures var sizes := Sizes(inFormat);
              var xs := Values(inFormat.type3, sizes, inData[d..d + Total(sizes, |sizes|)], stale, |sizes|);
              hv == Last(xs, stale) && o2hBuf[..] == old(o2hBuf[..])[..to] + xs + old(o2hBuf[..])[f..]
    {
      hide BlockLen, Decode, Total, Start, Layout, Values, Fetched, Last;
      FrameStarts(inFormat);
      ghost var base, sizes := o2hBuf[..], Sizes(inFormat);
      ghost var bs := inData[d..d + Total(sizes, |sizes|)];
      hide Sizes;
      ghost var n: nat := 0;
      var s: nat := d;
      f, hv := to, stale;
      NothingFetched(base, inFormat.type3, sizes, bs, stale, to);
      for j := 0 to FRAMES_PER_BLOCK
        invariant f == to + n && n == Start(j, |inFormat.tracks|) && n <= |sizes| && s == d + Total(sizes, n)
        invariant inData[d..d + Total(sizes, |sizes|)] == bs
        invariant Fetched(base, o2hBuf[..], inFormat.type3, sizes, bs, stale, to, n, hv)
      {
        FrameFits(inFormat, j);
        for k := 0 to |inFormat.tracks|
          invariant f == to + n && n == Start(j, |inFormat.tracks|) + k && n <= |sizes| && s == d + Total(sizes, n)
          invariant inData[d..d + Total(sizes, |sizes|)] == bs
          invariant Fetched(base, o2hBuf[..], inFormat.type3, sizes, bs, stale, to, n, hv)
        {
          SampleFits(inFormat, j, k);
          hv := FetchNext(s, inFormat.tracks[k], f, hv, base, sizes, bs, stale, d, to, n);
          s, f, n := s + inFormat.tracks[k], f + 1, n + 1;
        }
      }
      AllFetched(base, o2hBuf[..], inFormat.type3, sizes, bs, stale, to, hv);
    }

    /** Sample n of a block. */
    method FetchNext(s: nat, size: nat, f: nat, left: int32, ghost base: seq<int32>, ghost sizes: seq<nat>,
                     ghost bs: seq<byte>, ghost stale: int32, ghost d: nat, ghost to: nat, ghost n: nat)
      returns (hv: int32)
      requires (inData as object) != (o2hBuf as object)
      requires n < |sizes| && size == sizes[n] && s == d + Total(sizes, n) && f == to + n < o2hBuf.Length
      requires d + |bs| <= inData.Length && bs == inData[d..d + |bs|] && Total(sizes, n) + size <= |bs|
      requires Fetched(base, o2hBuf[..], inFormat.type3, sizes, bs, stale, to, n, left)
      modifies o2hBuf
      ensures Fetched(base, o2hBuf[..], inFormat.type3, sizes, bs, stale, to, n + 1, hv)
    {
      assert Total(sizes, n + 1) == Total(sizes, n) + size;
      FetchedShape(base, o2hBuf[..], inFormat.type3, sizes, bs, stale, to, n, left);
      hide Total, Decode, Fetched, Values;
      SliceOfSlice(inData[..], d, |bs|, Total(sizes, n), Total(sizes, n) + size);
      assert inData[s..s + size] == inData[..][s..s + size];
      ghost var now := o2hBuf[..];
      hv := Fetch(s, size, left);
      o2hBuf[f] := hv;
      FetchedOne(base, now, o2hBuf[..], inFormat.type3, sizes, bs, stale, to, n, left, hv);
    }

    /** One sample out of the packet: copied over what the variable holds, shifted and swapped. */
    method Fetch(s: nat, size: nat, stale: int32) returns (hv: int32)
      requires TrackSize(size) && s + size <= inData.Length
      ensures hv == Decode(inFormat.type3, inData[s..s + size], stale)
    {
      hv := Loaded(inData[s..s + size] + Memory(stale)[size..]);
      if inFormat.type3 && size == 4 {
        hv := Shifted(hv);
      }
      hv := Swap(hv);
    }

    /** ow_engine_read_usb_input_blocks; the variable starts with anything. */
    method ReadUsbInputBlocks(garbage: int32)
      requires Shaped()
      modifies o2hBuf
      ensures o2hBuf[..] == Readout(inFormat, inData[..], garbage, blocks)
    {
      ghost var was := o2hBuf[..];
      ReadoutStarts(inFormat, was, inData[..], garbage);
      hide ReadSoFar;
      var f, hv := 0, garbage;
      for i := 0 to blocks
        invariant ReadSoFar(inFormat, was, inData[..], garbage, i, f, o2hBuf[..], hv)
      {
        StartIsProduct(i, BlockLen(inFormat));
        f, hv := ReadNth(i, i * BlockLen(inFormat), f, hv, was, garbage);
      }
      ReadoutEnds(inFormat, was, inData[..], garbage, blocks, f, o2hBuf[..], hv);
    }

    /** A transfer that the device sends straight back. */
    method Loopback(garbage: int32)
      requires Valid() && inFormat == outFormat
      modifies this`counter, this`written, outData, inData, o2hBuf
      ensures Valid() && h2oBuf[..] == old(h2oBuf[..])
      ensures forall i, j, k :: 0 <= i < blocks && 0 <= j < FRAMES_PER_BLOCK && 0 <= k < |outFormat.tracks| ==>
                var at := Place(outFormat, i, j, k);
                at < h2oBuf.Length && at < o2hBuf.Length
                && Kept(outFormat.type3, outFormat.tracks[k], h2oBuf[at], o2hBuf[at])
    {
      hide Framed, Image, Readout, Kept, Place, BlockLen, Number;
      ghost var was, xs, first := outData[..], h2oBuf[..], counter;
      WriteUsbOutputBlocks();
      assert h2oBuf[..] == xs;
      ghost var image := outData[..];
      BuffersFit(outFormat, was, xs, blocks);
      assert image == Image(outFormat, was, xs, first, blocks);
      forall q | 0 <= q < inData.Length {
        inData[q] := outData[q];
      }
      assert outData[..] == image && inData[..] == image;
      ReadUsbInputBlocks(garbage);
      assert inData[..] == image && outData[..] == image;
      ghost var ys := o2hBuf[..];
      assert ys == Readout(outFormat, Image(outFormat, was, xs, first, blocks), garbage, blocks);
      assert h2oBuf[..] == xs;
      forall i, j, k | 0 <= i < blocks && 0 <= j < FRAMES_PER_BLOCK && 0 <= k < |outFormat.tracks|
        ensures var at := Place(outFormat, i, j, k);
                at < h2oBuf.Length && at < o2hBuf.Length
                && Kept(outFormat.type3, outFormat.tracks[k], h2oBuf[at], o2hBuf[at])
      {
        TransferRoundTrip(outFormat, was, xs, first, blocks, garbage, i, j, k);
        assert xs[Place(outFormat, i, j, k)] == h2oBuf[Place(outFormat, i, j, k)];
      }
    }

    /** Block i of the transfer. */
    method ReadNth(i: nat, at: nat, from: nat, stale: int32, ghost was: seq<int32>, ghost garbage: int32)
      returns (f: nat, hv: int32)
      requires Shaped() && i < blocks && at == Start(i, BlockLen(inFormat))
      requires ReadSoFar(inFormat, was, inData[..], garbage, i, from, o2hBuf[..], stale)
      modifies o2hBuf
      ensures inData[..] == old(inData[..])
      ensures ReadSoFar(inFormat, was, inData[..], garbage, i + 1, f, o2hBuf[..], hv)
    {
      hide Content, BlockLen, SamplesPerBlock, Start, Readout, Last, Values, Total, Sizes, ReadSoFar, Piece, Sized;
      ghost var now, data := o2hBuf[..], inData[..];
      ReadShape(inFormat, was, data, garbage, i, from, now, stale);
      BlockFits(inFormat, i, blocks);
      ContentIs(inFormat, data, i, stale);
      f, hv := ReadFrames(at + DATA, from, stale);
      assert inData[..] == data;
      ReadoutExtends(inFormat, was, data, garbage, i, from, stale, now, o2hBuf[..], hv);
    }
  }

  /** The first i blocks have been read. */
  ghost predicate ReadSoFar(fmt: Format, was: seq<int32>, data: seq<byte>, garbage: int32, i: nat, f: nat,
                            now: seq<int32>, hv: int32) {
    && Sized(fmt.tracks)
    && Start(i, BlockLen(fmt)) <= |data| && f == Start(i, SamplesPerBlock(fmt)) <= |was|
    && hv == Last(Readout(fmt, data, garbage, i), garbage)
    && now == Readout(fmt, data, garbage, i) + was[f..]
  }

  lemma BuffersFit(fmt: Format, data: seq<byte>, xs: seq<int32>, n: nat)
    requires Sized(fmt.tracks) && |data| == Start(n, BlockLen(fmt)) && |xs| == Start(n, SamplesPerBlock(fmt))
    ensures Buffers(fmt, data, xs, n)
  {
  }

  lemma ReadShape(fmt: Format, was: seq<int32>, data: seq<byte>, garbage: int32, i: nat, f: nat, now: seq<int32>,
                  hv: int32)
    requires ReadSoFar(fmt, was, data, garbage, i, f, now, hv)
    ensures f == Start(i, SamplesPerBlock(fmt)) && |now| == |was|
  {
  }

  lemma ReadoutStarts(fmt: Format, was: seq<int32>, data: seq<byte>, garbage: int32)
    requires Sized(fmt.tracks)
    ensures ReadSoFar(fmt, was, data, garbage, 0, 0, was, garbage)
  {
  }

  lemma ReadoutEnds(fmt: Format, was: seq<int32>, data: seq<byte>, garbage: int32, n: nat, f: nat, now: seq<int32>,
                    hv: int32)
    requires ReadSoFar(fmt, was, data, garbage, n, f, now, hv) && |now| == Start(n, SamplesPerBlock(fmt))
    ensures now == Readout(fmt, data, garbage, n)
  {
  }

  lemma ReadoutExtends(fmt: Format, was: seq<int32>, data: seq<byte>, garbage: int32, i: nat, from: nat, stale: int32,
                       now: seq<int32>, next: seq<int32>, hv: int32)
    requires ReadSoFar(fmt, was, data, garbage, i, from, now, stale)
    requires Start(i, BlockLen(fmt)) + BlockLen(fmt) <= |data| && from + SamplesPerBlock(fmt) <= |now|
    requires Sized(fmt.tracks)
    requires var xs := Content(fmt, Piece(data, i, BlockLen(fmt)), stale);
             hv == Last(xs, stale) && next == now[..from] + xs + now[from + SamplesPerBlock(fmt)..]
    ensures ReadSoFar(fmt, was, data, garbage, i + 1, from + SamplesPerBlock(fmt), next, hv)
  {
    hide Content, BlockLen, SamplesPerBlock;
    assert now[..from] == Readout(fmt, data, garbage, i);
    assert now[from + SamplesPerBlock(fmt)..] == was[from + SamplesPerBlock(fmt)..];
  }

  /** Where block i starts, it ends within the transfer and the next one starts. */
  lemma BlockFits(fmt: Format, i: nat, n: nat)
    requires i < n
    ensures Start(i + 1, BlockLen(fmt)) == Start(i, BlockLen(fmt)) + BlockLen(fmt) <= Start(n, BlockLen(fmt))
    ensures Start(i + 1, SamplesPerBlock(fmt)) == Start(i, SamplesPerBlock(fmt)) + SamplesPerBlock(fmt)
            <= Start(n, SamplesPerBlock(fmt))
  {
    StartGrows(i, n, BlockLen(fmt));
    StartGrows(i, n, SamplesPerBlock(fmt));
  }

  /** The samples of the block, in place. */
  lemma ContentIs(fmt: Format, data: seq<byte>, i: nat, stale: int32)
    requires Sized(fmt.tracks) && Start(i, BlockLen(fmt)) + BlockLen(fmt) <= |data|
    ensures BlockLen(fmt) == DATA + Total(Sizes(fmt), |Sizes(fmt)|)
    ensures var d := Start(i, BlockLen(fmt)) + DATA;
            Content(fmt, Piece(data, i, BlockLen(fmt)), stale)
            == Values(fmt.type3, Sizes(fmt), data[d..d + Total(Sizes(fmt), |Sizes(fmt)|)], stale, |Sizes(fmt)|)
  {
    BlockHoldsItsSamples(fmt);
    var d := Start(i, BlockLen(fmt)) + DATA;
    hide Values, Sizes, Total, BlockLen, Start;
    assert Piece(data, i, BlockLen(fmt))[DATA..] == data[d..d + Total(Sizes(fmt), |Sizes(fmt)|)];
  }

  /** The first n samples of a block have arrived. */
  ghost predicate Fetched(base: seq<int32>, now: seq<int32>, type3: bool, sizes: seq<nat>, bs: seq<byte>, stale: int32,
                          to: nat, n: nat, hv: int32)
    requires n <= |sizes|
  {
    && Sized(sizes) && |bs| == Total(sizes, |sizes|) && to + n <= |base|
    && hv == Last(Values(type3, sizes, bs, stale, n), stale)
    && now == base[..to] + Values(type3, sizes, bs, stale, n) + base[to + n..]
  }

  lemma FetchedOne(base: seq<int32>, now: seq<int32>, next: seq<int32>, type3: bool, sizes: seq<nat>, bs: seq<byte>,
                   stale: int32, to: nat, n: nat, left: int32, hv: int32)
    requires n < |sizes| && to + n < |base| && Total(sizes, n + 1) <= |bs|
    requires Fetched(base, now, type3, sizes, bs, stale, to, n, left)
    requires TrackSize(sizes[n]) && hv == Decode(type3, bs[Total(sizes, n)..Total(sizes, n + 1)], left)
    requires next == now[to + n := hv]
    ensures Fetched(base, next, type3, sizes, bs, stale, to, n + 1, hv)
  {
    hide Decode;
    var xs := Values(type3, sizes, bs, stale, n);
    TotalGrows(sizes, n + 1, |sizes|);
    assert Values(type3, sizes, bs, stale, n + 1) == xs + [hv];
    assert base[..to] + (xs + [hv]) == base[..to] + xs + [hv];
  }

  lemma NothingFetched(base: seq<int32>, type3: bool, sizes: seq<nat>, bs: seq<byte>, stale: int32, to: nat)
    requires Sized(sizes) && |bs| == Total(sizes, |sizes|) && to <= |base|
    ensures Fetched(base, base, type3, sizes, bs, stale, to, 0, stale)
  {
  }

  lemma AllFetched(base: seq<int32>, now: seq<int32>, type3: bool, sizes: seq<nat>, bs: seq<byte>, stale: int32,
                   to: nat, hv: int32)
    requires Fetched(base, now, type3, sizes, bs, stale, to, |sizes|, hv)
    ensures Sized(sizes) && |bs| == Total(sizes, |sizes|) && to + |sizes| <= |base|
    ensures var xs := Values(type3, sizes, bs, stale, |sizes|);
            hv == Last(xs, stale) && now == base[..to] + xs + base[to + |sizes|..]
  {
  }

  lemma FetchedShape(base: seq<int32>, now: seq<int32>, type3: bool, sizes: seq<nat>, bs: seq<byte>, stale: int32,
                     to: nat, n: nat, hv: int32)
    requires n <= |sizes| && Fetched(base, now, type3, sizes, bs, stale, to, n, hv)
    ensures Sized(sizes) && |now| == |base|
  {
  }

  lemma NothingStored(base: seq<byte>, type3: bool, sizes: seq<nat>, xs: seq<int32>, d: nat)
    requires Sized(sizes) && |sizes| <= |xs| && d <= |base|
    ensures Stored(base, base, type3, sizes, xs, d, 0, d)
  {
  }

  /** Of the first n samples of a block, s is the end; the rest of the transfer is as it was. */
  ghost predicate Stored(base: seq<byte>, data: seq<byte>, type3: bool, sizes: seq<nat>, xs: seq<int32>, d: nat,
                         n: nat, s: nat) {
    && Sized(sizes) && n <= |sizes| <= |xs|
    && s == d + Total(sizes, n) <= |base|
    && data == base[..d] + Payload(type3, sizes, xs, n) + base[s..]
  }

  ghost predicate Framed(fmt: Format, data: seq<byte>, n: nat) {
    && Start(n, BlockLen(fmt)) <= |data|
    && forall i: nat, q: nat :: i < n && q < DATA && q != 2 && q != 3 ==>
         HeaderByte(fmt, data, n, i, q) == if q < 2 then HEADER[q] else 0
  }

  /** Byte q of the header of block i. */
  function HeaderByte(fmt: Format, data: seq<byte>, n: nat, i: nat, q: nat): byte
    requires i < n && q < DATA && Start(n, BlockLen(fmt)) <= |data|
  {
    StartGrows(i, n, BlockLen(fmt));
    data[Start(i, BlockLen(fmt)) + q]
  }

  /** The header of one more block. */
  lemma FramedExtends(fmt: Format, before: seq<byte>, after: seq<byte>, i: nat)
    requires Framed(fmt, before, i) && Start(i + 1, BlockLen(fmt)) <= |before|
    requires after == before[Start(i, BlockLen(fmt)) := HEADER[0]][Start(i, BlockLen(fmt)) + 1 := HEADER[1]]
    requires forall k :: Start(i, BlockLen(fmt)) <= k < |before| ==> before[k] == 0
    ensures Framed(fmt, after, i + 1)
  {
    assert BlockLen(fmt) >= DATA;
    hide BlockLen;
    var n := i + 1;
    forall b: nat, q: nat | b < n && q < DATA && q != 2 && q != 3
      ensures HeaderByte(fmt, after, n, b, q) == if q < 2 then HEADER[q] else 0
    {
      StartGrows(b, n, BlockLen(fmt));
      if b < i {
        StartGrows(b, i, BlockLen(fmt));
        assert HeaderByte(fmt, before, i, b, q) == before[Start(b, BlockLen(fmt)) + q];
        assert Start(b, BlockLen(fmt)) + q < Start(i, BlockLen(fmt));
      }
    }
  }

  lemma FramedImage(fmt: Format, was: seq<byte>, xs: seq<int32>, counter: uint16, n: nat)
    requires Buffers(fmt, was, xs, n) && Framed(fmt, was, n)
    ensures Framed(fmt, Image(fmt, was, xs, counter, n), n)
    ensures forall i: nat :: i < n ==>
              HeaderByte(fmt, Image(fmt, was, xs, counter, n), n, i, 2) == Number(counter, i) / 256
              && HeaderByte(fmt, Image(fmt, was, xs, counter, n), n, i, 3) == Number(counter, i) % 256
  {
    hide Image, BlockLen, Number, Start;
    forall i: nat, q: nat | i < n && q < DATA
      ensures HeaderByte(fmt, Image(fmt, was, xs, counter, n), n, i, q)
              == if q == 2 then Number(counter, i) / 256
                 else if q == 3 then Number(counter, i) % 256
                 else HeaderByte(fmt, was, n, i, q)
    {
      HeadersAreUntouched(fmt, was, xs, counter, n, i, q);
    }
  }

  /** The first i blocks have been written. */
  ghost predicate WrittenSoFar(fmt: Format, was: seq<byte>, xs: seq<int32>, first: uint16, i: nat, f: nat,
                               now: seq<byte>, counter: uint16) {
    && Buffers(fmt, was, xs, i)
    && f == Start(i, SamplesPerBlock(fmt)) && counter == Number(first, i)
    && now == Image(fmt, was, xs, first, i) + was[Start(i, BlockLen(fmt))..]
  }

  lemma WrittenShape(fmt: Format, was: seq<byte>, xs: seq<int32>, first: uint16, i: nat, f: nat, now: seq<byte>,
                     counter: uint16)
    requires WrittenSoFar(fmt, was, xs, first, i, f, now, counter)
    ensures f == Start(i, SamplesPerBlock(fmt)) && |now| == |was|
  {
  }

  lemma ImageStarts(fmt: Format, was: seq<byte>, xs: seq<int32>, counter: uint16)
    requires Sized(fmt.tracks)
    ensures WrittenSoFar(fmt, was, xs, counter, 0, 0, was, counter)
  {
  }

  lemma ImageEnds(fmt: Format, was: seq<byte>, xs: seq<int32>, first: uint16, n: nat, f: nat, now: seq<byte>,
                  counter: uint16)
    requires WrittenSoFar(fmt, was, xs, first, n, f, now, counter) && |now| == Start(n, BlockLen(fmt))
    ensures Buffers(fmt, was, xs, n) && now == Image(fmt, was, xs, first, n) && counter == Number(first, n)
  {
  }

  lemma ImageExtends(fmt: Format, was: seq<byte>, xs: seq<int32>, first: uint16, i: nat, from: nat, data: seq<byte>,
                     counter: uint16, next: seq<byte>)
    requires WrittenSoFar(fmt, was, xs, first, i, from, data, counter)
    requires Sized(fmt.tracks) && from + SamplesPerBlock(fmt) <= |xs|
             && Start(i, BlockLen(fmt)) + BlockLen(fmt) <= |data|
    requires var at := Start(i, BlockLen(fmt));
             next == data[..at] + Block(fmt, data[at..at + BlockLen(fmt)], xs[from..from + SamplesPerBlock(fmt)],
                                        counter)
                     + data[at + BlockLen(fmt)..]
    ensures WrittenSoFar(fmt, was, xs, first, i + 1, from + SamplesPerBlock(fmt), next, Number(counter, 1))
  {
    NumbersContinue(first, i, 1);
    hide Block, BlockLen, SamplesPerBlock, Number, Image;
    var at, done := Start(i, BlockLen(fmt)), Image(fmt, was, xs, first, i);
    assert Piece(xs, i, SamplesPerBlock(fmt)) == xs[from..from + SamplesPerBlock(fmt)];
    Spliced(done, was, data, at, BlockLen(fmt));
    assert Piece(was, i, BlockLen(fmt)) == was[at..at + BlockLen(fmt)];
    assert Start(i + 1, BlockLen(fmt)) == at + BlockLen(fmt)
           && Start(i + 1, SamplesPerBlock(fmt)) == from + SamplesPerBlock(fmt);
    hide Piece, Start, Sized;
    ImageIsOneMore(fmt, was, xs, first, i);
  }

  lemma ImageIsOneMore(fmt: Format, was: seq<byte>, xs: seq<int32>, first: uint16, i: nat)
    requires Buffers(fmt, was, xs, i + 1) && Buffers(fmt, was, xs, i)
    ensures Image(fmt, was, xs, first, i + 1)
            == Image(fmt, was, xs, first, i)
               + Block(fmt, Piece(was, i, BlockLen(fmt)), Piece(xs, i, SamplesPerBlock(fmt)), Number(first, i))
  {
    hide Block, BlockLen, SamplesPerBlock, Number;
  }

  lemma Spliced<T>(done: seq<T>, was: seq<T>, now: seq<T>, at: nat, len: nat)
    requires |done| == at && at + len <= |was| && now == done + was[at..]
    ensures now[..at] == done && now[at..at + len] == was[at..at + len] && now[at + len..] == was[at + len..]
  {
  }

  lemma FrameStarts(fmt: Format)
    ensures Start(0, |fmt.tracks|) == 0 && Start(FRAMES_PER_BLOCK, |fmt.tracks|) == SamplesPerBlock(fmt)
    ensures Total(Sizes(fmt), 0) == 0
  {
    StartIsProduct(FRAMES_PER_BLOCK, |fmt.tracks|);
  }

  lemma FrameFits(fmt: Format, j: nat)
    requires j < FRAMES_PER_BLOCK
    ensures Start(j + 1, |fmt.tracks|) == Start(j, |fmt.tracks|) + |fmt.tracks| <= |Sizes(fmt)|
  {
    StartGrows(j, FRAMES_PER_BLOCK, |fmt.tracks|);
    StartIsProduct(FRAMES_PER_BLOCK, |fmt.tracks|);
  }

  /** The size of the sample of track k of frame j, and the room that is left for it. */
  lemma SampleFits(fmt: Format, j: nat, k: nat)
    requires j < FRAMES_PER_BLOCK && k < |fmt.tracks|
    ensures var n, sizes := Start(j, |fmt.tracks|) + k, Sizes(fmt);
            && n < |sizes| && sizes[n] == fmt.tracks[k]
            && Total(sizes, n + 1) == Total(sizes, n) + fmt.tracks[k] <= Total(sizes, |sizes|)
  {
    LayoutAt(fmt.tracks, FRAMES_PER_BLOCK, j, k);
    StartIsProduct(FRAMES_PER_BLOCK, |fmt.tracks|);
    hide Start, Layout;
    var n := Start(j, |fmt.tracks|) + k;
    assert Sizes(fmt)[n] == fmt.tracks[k];
    hide Sizes;
    TotalGrows(Sizes(fmt), n + 1, |Sizes(fmt)|);
  }

  lemma StoredOne(base: seq<byte>, data: seq<byte>, next: seq<byte>, type3: bool, sizes: seq<nat>, xs: seq<int32>,
                  d: nat, n: nat, s: nat)
    requires Stored(base, data, type3, sizes, xs, d, n, s) && n < |sizes| && s + sizes[n] <= |base|
    requires next == data[..s] + Encode(type3, sizes[n], xs[n]) + data[s + sizes[n]..]
    ensures Stored(base, next, type3, sizes, xs, d, n + 1, s + sizes[n])
  {
    hide Encode;
    var bs := Encode(type3, sizes[n], xs[n]);
    assert data[..s] == base[..d] + Payload(type3, sizes, xs, n);
    assert data[s + sizes[n]..] == base[s + sizes[n]..];
    assert base[..d] + Payload(type3, sizes, xs, n) + bs == base[..d] + (Payload(type3, sizes, xs, n) + bs);
  }

  lemma HeaderStored(before: seq<byte>, base: seq<byte>, counter: uint16, at: nat, s: nat)
    requires at + DATA <= s <= |before|
    requires base == before[at + 2 := counter / 256][at + 3 := counter % 256]
    ensures var was := before[at..s];
            base[..at + DATA] == before[..at] + (was[..2] + BigEndian(counter) + was[4..DATA])
    ensures base[s..] == before[s..]
  {
    var was := before[at..s];
    forall k | at <= k < at + DATA
      ensures base[k] == (was[..2] + BigEndian(counter) + was[4..DATA])[k - at]
    {
      assert before[k] == was[k - at];
    }
  }

  lemma BlockStored(fmt: Format, before: seq<byte>, base: seq<byte>, data: seq<byte>, xs: seq<int32>, counter: uint16,
                    at: nat, s: nat)
    requires Sized(fmt.tracks) && at + BlockLen(fmt) <= |before| && |xs| == SamplesPerBlock(fmt)
    requires base == before[at + 2 := counter / 256][at + 3 := counter % 256]
    requires Stored(base, data, fmt.type3, Sizes(fmt), xs, at + DATA, |Sizes(fmt)|, s)
    ensures s == at + BlockLen(fmt)
    ensures data == before[..at] + Block(fmt, before[at..s], xs, counter) + before[s..]
  {
    BlockHoldsItsSamples(fmt);
    hide Payload, Sizes, BlockLen, BigEndian;
    HeaderStored(before, base, counter, at, s);
    var was := before[at..s];
    var head, payload := was[..2] + BigEndian(counter) + was[4..DATA], Payload(fmt.type3, Sizes(fmt), xs, |Sizes(fmt)|);
    assert Block(fmt, was, xs, counter) == head + payload;
    hide Block;
    assert before[..at] + head + payload == before[..at] + (head + payload);
  }

  // ----- Block numbers -----

  /** The counters of any 65536 consecutive blocks differ pairwise, and then they come around: two
      blocks carry the same counter exactly when a multiple of 65536 blocks lies between them. */
  lemma NumbersRepeat(first: int, m: nat, n: nat)
    requires m <= n
    ensures Number(first, m) == Number(first, n) <==> (n - m) % 0x1_0000 == 0
  {
    var a, b, d := first + FRAMES_PER_BLOCK * m, first + FRAMES_PER_BLOCK * n, n - m;
    assert b == a + 7 * d;
    if Number(first, m) == Number(first, n) {
      var q := b / 0x1_0000 - a / 0x1_0000;
      assert 7 * d == 0x1_0000 * q;
      // 7 has an inverse: 7 * 28087 == 3 * 65536 + 1.
      assert d == 0x1_0000 * (28087 * q - 3 * d);
    }
    if d % 0x1_0000 == 0 {
      assert 7 * d == 0x1_0000 * (7 * (d / 0x1_0000));
    }
  }

  lemma WrapOnce(a: int, b: int)
    ensures (a % 0x1_0000 + b) % 0x1_0000 == (a + b) % 0x1_0000
  {
    assert a + b == (a % 0x1_0000 + b) + a / 0x1_0000 * 0x1_0000;
  }

  lemma NumbersContinue(first: int, m: nat, n: nat)
    ensures Number(Number(first, m), n) == Number(first, m + n)
  {
    WrapOnce(first + FRAMES_PER_BLOCK * m, FRAMES_PER_BLOCK * n);
  }
}
