/** The blocks of a USB transfer: a header, a counter, padding, and seven frames of samples. */
module Blocks {
  import opened Words
  import opened Spans
  import opened Samples

  const FRAMES_PER_BLOCK: nat := 7
  const PADDING_LEN: nat := 28
  const DATA: nat := 4 + PADDING_LEN

  type uint16 = x: int | 0 <= x < 0x1_0000

  /** The device's type and the sizes of its tracks in one direction. */
  datatype Format = Format(type3: bool, tracks: seq<nat>)

  predicate Sized(sizes: seq<nat>) {
    forall k :: 0 <= k < |sizes| ==> TrackSize(sizes[k])
  }

  // ----- Where things are -----

  /** The sizes of the samples of some frames, one after another. */
  function Layout(tracks: seq<nat>, frames: nat): (s: seq<nat>)
    ensures |s| == Start(frames, |tracks|)
    ensures Sized(tracks) ==> Sized(s)
  {
    if frames == 0 then [] else Layout(tracks, frames - 1) + tracks
  }

  /** The bytes of the first n samples. */
  function Total(sizes: seq<nat>, n: nat): nat
    requires n <= |sizes|
  {
    if n == 0 then 0 else Total(sizes, n - 1) + sizes[n - 1]
  }

  lemma {:induction false} LayoutAt(tracks: seq<nat>, frames: nat, j: nat, k: nat)
    requires j < frames && k < |tracks|
    ensures Start(j, |tracks|) + k < Start(frames, |tracks|)
    ensures Layout(tracks, frames)[Start(j, |tracks|) + k] == tracks[k]
  {
    StartGrows(j, frames, |tracks|);
    if j < frames - 1 {
      LayoutAt(tracks, frames - 1, j, k);
    }
  }

  /** A sample is preceded by the whole frames before it and by the tracks before its own. */
  lemma {:induction false} TotalAt(tracks: seq<nat>, frames: nat, j: nat, k: nat)
    requires k <= |tracks| && j <= frames && (j == frames ==> k == 0)
    ensures Start(j, |tracks|) + k <= Start(frames, |tracks|)
    ensures Total(Layout(tracks, frames), Start(j, |tracks|) + k)
            == Start(j, Total(tracks, |tracks|)) + Total(tracks, k)
    decreases j, k
  {
    StartGrows(j, frames, |tracks|);
    if k > 0 {
      TotalAt(tracks, frames, j, k - 1);
      LayoutAt(tracks, frames, j, k - 1);
    } else if j > 0 {
      TotalAt(tracks, frames, j - 1, |tracks|);
    }
  }

  lemma {:induction false} TotalGrows(sizes: seq<nat>, m: nat, n: nat)
    requires m <= n <= |sizes|
    ensures Total(sizes, m) <= Total(sizes, n)
  {
    if m < n { TotalGrows(sizes, m, n - 1); }
  }

  function FrameSize(fmt: Format): nat {
    Total(fmt.tracks, |fmt.tracks|)
  }

  function Sizes(fmt: Format): (s: seq<nat>)
    ensures |s| == SamplesPerBlock(fmt)
    ensures Sized(fmt.tracks) ==> Sized(s)
  {
    StartIsProduct(FRAMES_PER_BLOCK, |fmt.tracks|);
    Layout(fmt.tracks, FRAMES_PER_BLOCK)
  }

  function SamplesPerBlock(fmt: Format): nat {
    FRAMES_PER_BLOCK * |fmt.tracks|
  }

  /** The length of a block is computed from the size of a frame. */
  function BlockLen(fmt: Format): nat {
    DATA + FRAMES_PER_BLOCK * FrameSize(fmt)
  }

  lemma BlockHoldsItsSamples(fmt: Format)
    ensures BlockLen(fmt) == DATA + Total(Sizes(fmt), |Sizes(fmt)|)
  {
    TotalAt(fmt.tracks, FRAMES_PER_BLOCK, FRAMES_PER_BLOCK, 0);
    StartIsProduct(FRAMES_PER_BLOCK, FrameSize(fmt));
    StartIsProduct(FRAMES_PER_BLOCK, |fmt.tracks|);
  }

  function Piece<T>(s: seq<T>, i: nat, len: nat): (p: seq<T>)
    requires Start(i, len) + len <= |s|
    ensures |p| == len
  {
    s[Start(i, len)..Start(i, len) + len]
  }

  // ----- Writing -----

  /** The first n samples of a block. */
  function Payload(type3: bool, sizes: seq<nat>, xs: seq<int32>, n: nat): (bs: seq<byte>)
    requires Sized(sizes) && n <= |sizes| <= |xs|
    ensures |bs| == Total(sizes, n)
  {
    if n == 0 then [] else Payload(type3, sizes, xs, n - 1) + Encode(type3, sizes[n - 1], xs[n - 1])
  }

  function BigEndian(counter: uint16): (bs: seq<byte>)
    ensures |bs| == 2
  {
    [counter / 256, counter % 256]
  }

  /** What a block becomes. */
  function Block(fmt: Format, was: seq<byte>, xs: seq<int32>, counter: uint16): (b: seq<byte>)
    requires Sized(fmt.tracks) && |was| == BlockLen(fmt) && |xs| == SamplesPerBlock(fmt)
    ensures |b| == BlockLen(fmt)
  {
    BlockHoldsItsSamples(fmt);
    was[..2] + BigEndian(counter) + was[4..DATA] + Payload(fmt.type3, Sizes(fmt), xs, |Sizes(fmt)|)
  }

  /** The counter of the i-th block after a block that carried `first`. */
  function Number(first: int, i: nat): uint16 {
    (first + FRAMES_PER_BLOCK * i) % 0x1_0000
  }

  predicate Buffers(fmt: Format, data: seq<byte>, xs: seq<int32>, n: nat) {
    Sized(fmt.tracks) && Start(n, BlockLen(fmt)) <= |data| && Start(n, SamplesPerBlock(fmt)) <= |xs|
  }

  /** What the first n blocks of a transfer become. */
  function Image(fmt: Format, was: seq<byte>, xs: seq<int32>, counter: uint16, n: nat): (data: seq<byte>)
    requires Buffers(fmt, was, xs, n)
    ensures |data| == Start(n, BlockLen(fmt))
  {
    if n == 0 then [] else
    Image(fmt, was, xs, counter, n - 1)
    + Block(fmt, Piece(was, n - 1, BlockLen(fmt)), Piece(xs, n - 1, SamplesPerBlock(fmt)), Number(counter, n - 1))
  }

  // ----- Reading -----

  function Last(xs: seq<int32>, otherwise: int32): int32 {
    if xs == [] then otherwise else xs[|xs| - 1]
  }

  /** The first n samples of a block. Each leaves its value behind for the next. */
  function Values(type3: bool, sizes: seq<nat>, bs: seq<byte>, stale: int32, n: nat): (xs: seq<int32>)
    requires Sized(sizes) && n <= |sizes| && |bs| == Total(sizes, |sizes|)
    ensures |xs| == n
  {
    if n == 0 then [] else
    TotalGrows(sizes, n, |sizes|);
    var xs := Values(type3, sizes, bs, stale, n - 1);
    xs + [Decode(type3, bs[Total(sizes, n - 1)..Total(sizes, n)], Last(xs, stale))]
  }

  /** The samples of a block. */
  function Content(fmt: Format, block: seq<byte>, stale: int32): (xs: seq<int32>)
    requires Sized(fmt.tracks) && |block| == BlockLen(fmt)
    ensures |xs| == SamplesPerBlock(fmt)
  {
    BlockHoldsItsSamples(fmt);
    Values(fmt.type3, Sizes(fmt), block[DATA..], stale, |Sizes(fmt)|)
  }

  /** The samples of the first n blocks of a transfer. */
  function Readout(fmt: Format, data: seq<byte>, stale: int32, n: nat): (xs: seq<int32>)
    requires Sized(fmt.tracks) && Start(n, BlockLen(fmt)) <= |data|
    ensures |xs| == Start(n, SamplesPerBlock(fmt))
  {
    if n == 0 then [] else
    var xs := Readout(fmt, data, stale, n - 1);
    xs + Content(fmt, Piece(data, n - 1, BlockLen(fmt)), Last(xs, stale))
  }

  // ----- What was written -----

  lemma {:induction false} PayloadAt(type3: bool, sizes: seq<nat>, xs: seq<int32>, n: nat, k: nat)
    requires Sized(sizes) && k < n <= |sizes| <= |xs|
    ensures Total(sizes, k + 1) <= Total(sizes, n)
    ensures Payload(type3, sizes, xs, n)[Total(sizes, k)..Total(sizes, k + 1)] == Encode(type3, sizes[k], xs[k])
  {
    hide Encode;
    if k < n - 1 {
      PayloadAt(type3, sizes, xs, n - 1, k);
      var before := Payload(type3, sizes, xs, n - 1);
      assert Payload(type3, sizes, xs, n) == before + Encode(type3, sizes[n - 1], xs[n - 1]);
      hide Payload;
    }
  }

  lemma {:induction false} ImageAt(fmt: Format, was: seq<byte>, xs: seq<int32>, counter: uint16, n: nat, i: nat)
    requires Buffers(fmt, was, xs, n) && i < n
    ensures Start(i, BlockLen(fmt)) + BlockLen(fmt) <= Start(n, BlockLen(fmt))
    ensures Start(i, SamplesPerBlock(fmt)) + SamplesPerBlock(fmt) <= Start(n, SamplesPerBlock(fmt))
    ensures Piece(Image(fmt, was, xs, counter, n), i, BlockLen(fmt))
            == Block(fmt, Piece(was, i, BlockLen(fmt)), Piece(xs, i, SamplesPerBlock(fmt)), Number(counter, i))
  {
    hide Block, BlockLen, SamplesPerBlock, Number;
    StartGrows(i, n, BlockLen(fmt));
    StartGrows(i, n, SamplesPerBlock(fmt));
    if i < n - 1 {
      ImageAt(fmt, was, xs, counter, n - 1, i);
      PieceOfPrefix(Image(fmt, was, xs, counter, n - 1), Image(fmt, was, xs, counter, n), i, BlockLen(fmt));
    }
  }

  lemma PieceOfPrefix<T>(prefix: seq<T>, s: seq<T>, i: nat, len: nat)
    requires prefix <= s && Start(i, len) + len <= |prefix|
    ensures Piece(prefix, i, len) == Piece(s, i, len)
  {
  }

  /** Where the sample of track k of frame j of block i is in the engine's buffer of samples. */
  function Place(fmt: Format, i: nat, j: nat, k: nat): nat {
    (i * FRAMES_PER_BLOCK + j) * |fmt.tracks| + k
  }

  lemma PlaceInBlock(fmt: Format, n: nat, i: nat, j: nat, k: nat)
    requires i < n && j < FRAMES_PER_BLOCK && k < |fmt.tracks|
    ensures Start(j, |fmt.tracks|) + k < SamplesPerBlock(fmt)
    ensures Place(fmt, i, j, k) == Start(i, SamplesPerBlock(fmt)) + (Start(j, |fmt.tracks|) + k)
    ensures Start(i, SamplesPerBlock(fmt)) + SamplesPerBlock(fmt) <= Start(n, SamplesPerBlock(fmt))
  {
    var w := |fmt.tracks|;
    StartGrows(j, FRAMES_PER_BLOCK, w);
    StartGrows(i, n, SamplesPerBlock(fmt));
    StartIsProduct(FRAMES_PER_BLOCK, w);
    StartIsProduct(i, SamplesPerBlock(fmt));
    StartIsProduct(j, w);
    PlaceProduct(i, j, w);
  }

  lemma PlaceProduct(i: nat, j: nat, w: nat)
    ensures (i * FRAMES_PER_BLOCK + j) * w == i * (FRAMES_PER_BLOCK * w) + j * w
  {
  }

  /** Where its bytes are in the transfer: after the header of its block, the whole frames before its
      own, and the tracks before its own. */
  function Address(fmt: Format, i: nat, j: nat, k: nat): nat
    requires k <= |fmt.tracks|
  {
    Start(i, BlockLen(fmt)) + DATA + Start(j, FrameSize(fmt)) + Total(fmt.tracks, k)
  }

  lemma AddressSpelledOut(fmt: Format, i: nat, j: nat, k: nat)
    requires k <= |fmt.tracks|
    ensures Address(fmt, i, j, k) == i * BlockLen(fmt) + DATA + j * FrameSize(fmt) + Total(fmt.tracks, k)
  {
    hide BlockLen, FrameSize;
    StartIsProduct(i, BlockLen(fmt));
    StartIsProduct(j, FrameSize(fmt));
  }

  lemma AddressInBlock(fmt: Format, i: nat, j: nat, k: nat)
    requires j < FRAMES_PER_BLOCK && k < |fmt.tracks|
    ensures Start(j, |fmt.tracks|) + k < |Sizes(fmt)| && Sizes(fmt)[Start(j, |fmt.tracks|) + k] == fmt.tracks[k]
    ensures Address(fmt, i, j, k)
            == Start(i, BlockLen(fmt)) + (DATA + Total(Sizes(fmt), Start(j, |fmt.tracks|) + k))
  {
    hide Layout, Start, BlockLen, Total;
    TotalAt(fmt.tracks, FRAMES_PER_BLOCK, j, k);
    LayoutAt(fmt.tracks, FRAMES_PER_BLOCK, j, k);
    assert FrameSize(fmt) == Total(fmt.tracks, |fmt.tracks|);
    assert Sizes(fmt) == Layout(fmt.tracks, FRAMES_PER_BLOCK);
    hide FrameSize, Sizes, SamplesPerBlock;
  }

  lemma PayloadOfBlock(fmt: Format, was: seq<byte>, xs: seq<int32>, counter: uint16)
    requires Sized(fmt.tracks) && |was| == BlockLen(fmt) && |xs| == SamplesPerBlock(fmt)
    ensures Block(fmt, was, xs, counter)[DATA..] == Payload(fmt.type3, Sizes(fmt), xs, |Sizes(fmt)|)
  {
    hide Payload, Sizes;
  }

  lemma SliceOfTail<T>(s: seq<T>, d: nat, a: nat, b: nat)
    requires a <= b && d + b <= |s|
    ensures s[d..][a..b] == s[d + a..d + b]
  {
    SliceOfSlice(s, d, |s| - d, a, b);
    assert s[d..d + (|s| - d)] == s[d..];
  }

  lemma SliceOfPiece<T>(s: seq<T>, i: nat, len: nat, a: nat, b: nat)
    requires Start(i, len) + len <= |s| && a <= b <= len
    ensures Piece(s, i, len)[a..b] == s[Start(i, len) + a..Start(i, len) + b]
  {
    hide Start;
    SliceOfSlice(s, Start(i, len), len, a, b);
  }

  lemma SampleInBlock(fmt: Format, was: seq<byte>, xs: seq<int32>, counter: uint16, p: nat)
    requires Sized(fmt.tracks) && |was| == BlockLen(fmt) && |xs| == SamplesPerBlock(fmt) && p < SamplesPerBlock(fmt)
    ensures var at := DATA + Total(Sizes(fmt), p);
            && at + Sizes(fmt)[p] <= BlockLen(fmt)
            && Block(fmt, was, xs, counter)[at..at + Sizes(fmt)[p]] == Encode(fmt.type3, Sizes(fmt)[p], xs[p])
  {
    BlockHoldsItsSamples(fmt);
    PayloadAt(fmt.type3, Sizes(fmt), xs, |Sizes(fmt)|, p);
    PayloadOfBlock(fmt, was, xs, counter);
    assert Total(Sizes(fmt), p + 1) == Total(Sizes(fmt), p) + Sizes(fmt)[p];
    hide Block, Payload, Sizes, Encode, Total, BlockLen;
    SliceOfTail(Block(fmt, was, xs, counter), DATA, Total(Sizes(fmt), p), Total(Sizes(fmt), p + 1));
  }

  lemma SampleInPiece(fmt: Format, was: seq<byte>, xs: seq<int32>, counter: uint16, n: nat, i: nat, p: nat)
    requires Buffers(fmt, was, xs, n) && i < n && p < SamplesPerBlock(fmt)
    ensures var at, from := Start(i, BlockLen(fmt)) + (DATA + Total(Sizes(fmt), p)), Start(i, SamplesPerBlock(fmt)) + p;
            && at + Sizes(fmt)[p] <= Start(n, BlockLen(fmt)) && from < Start(n, SamplesPerBlock(fmt))
            && Image(fmt, was, xs, counter, n)[at..at + Sizes(fmt)[p]] == Encode(fmt.type3, Sizes(fmt)[p], xs[from])
  {
    hide Image, Block, Encode, Start, Total, Number, Layout;
    ImageAt(fmt, was, xs, counter, n, i);
    var mine, at := Piece(xs, i, SamplesPerBlock(fmt)), DATA + Total(Sizes(fmt), p);
    SampleInBlock(fmt, Piece(was, i, BlockLen(fmt)), mine, Number(counter, i), p);
    assert mine[p] == xs[Start(i, SamplesPerBlock(fmt)) + p];
    hide Piece, BlockLen, SamplesPerBlock;
    SliceOfPiece(Image(fmt, was, xs, counter, n), i, BlockLen(fmt), at, at + Sizes(fmt)[p]);
  }

  /** The published layout of a transfer: each sample lies, encoded, at its own address. */
  lemma SamplesAreInPlace(fmt: Format, was: seq<byte>, xs: seq<int32>, counter: uint16, n: nat, i: nat, j: nat, k: nat)
    requires Buffers(fmt, was, xs, n) && i < n && j < FRAMES_PER_BLOCK && k < |fmt.tracks|
    ensures Address(fmt, i, j, k) == i * BlockLen(fmt) + DATA + j * FrameSize(fmt) + Total(fmt.tracks, k)
    ensures var data, at := Image(fmt, was, xs, counter, n), Address(fmt, i, j, k);
            && at + fmt.tracks[k] <= |data| && Place(fmt, i, j, k) < |xs|
            && data[at..at + fmt.tracks[k]] == Encode(fmt.type3, fmt.tracks[k], xs[Place(fmt, i, j, k)])
  {
    hide Image, Sizes, Encode, Start, Address, Place, Total, BlockLen, Layout;
    AddressSpelledOut(fmt, i, j, k);
    PlaceInBlock(fmt, n, i, j, k);
    AddressInBlock(fmt, i, j, k);
    SampleInPiece(fmt, was, xs, counter, n, i, Start(j, |fmt.tracks|) + k);
  }

  /** Nothing but the counter changes in front of the samples. */
  lemma HeadersAreUntouched(fmt: Format, was: seq<byte>, xs: seq<int32>, counter: uint16, n: nat, i: nat, q: nat)
    requires Buffers(fmt, was, xs, n) && i < n && q < DATA
    ensures var data, at := Image(fmt, was, xs, counter, n), Start(i, BlockLen(fmt)) + q;
            && at < |data| <= |was|
            && data[at] == if q == 2 then Number(counter, i) / 256
                           else if q == 3 then Number(counter, i) % 256
                           else was[at]
  {
    ImageAt(fmt, was, xs, counter, n, i);
    BlockHoldsItsSamples(fmt);
    hide Image, Payload, Sizes, Number, Start, Block, BlockLen, Total, Piece;
    HeaderOfBlock(fmt, Piece(was, i, BlockLen(fmt)), Piece(xs, i, SamplesPerBlock(fmt)), Number(counter, i), q);
    PieceIndex(Image(fmt, was, xs, counter, n), i, BlockLen(fmt), q);
    PieceIndex(was, i, BlockLen(fmt), q);
  }

  lemma HeaderOfBlock(fmt: Format, was: seq<byte>, xs: seq<int32>, counter: uint16, q: nat)
    requires Sized(fmt.tracks) && |was| == BlockLen(fmt) && |xs| == SamplesPerBlock(fmt) && q < DATA
    ensures Block(fmt, was, xs, counter)[q]
            == if q == 2 then counter / 256 else if q == 3 then counter % 256 else was[q]
  {
    hide Payload, Sizes;
  }

  // ----- The round trip -----

  lemma {:induction false} BlockRoundTrip(type3: bool, sizes: seq<nat>, xs: seq<int32>, stale: int32, n: nat, p: nat)
    requires Sized(sizes) && |xs| == |sizes| && p < n <= |sizes|
    ensures Kept(type3, sizes[p], xs[p], Values(type3, sizes, Payload(type3, sizes, xs, |sizes|), stale, n)[p])
  {
    hide Kept, Encode, Decode, Payload;
    if p < n - 1 {
      BlockRoundTrip(type3, sizes, xs, stale, n - 1, p);
    } else {
      PayloadAt(type3, sizes, xs, |sizes|, p);
      SampleRoundTrip(type3, sizes[p], xs[p],
                      Last(Values(type3, sizes, Payload(type3, sizes, xs, |sizes|), stale, p), stale));
    }
  }

  lemma {:induction false} ReadoutAt(fmt: Format, data: seq<byte>, stale: int32, n: nat, i: nat)
    requires Sized(fmt.tracks) && Start(n, BlockLen(fmt)) <= |data| && i < n
    ensures Start(i, BlockLen(fmt)) + BlockLen(fmt) <= |data|
    ensures Start(i, SamplesPerBlock(fmt)) + SamplesPerBlock(fmt) <= Start(n, SamplesPerBlock(fmt))
    ensures Piece(Readout(fmt, data, stale, n), i, SamplesPerBlock(fmt))
            == Content(fmt, Piece(data, i, BlockLen(fmt)), Last(Readout(fmt, data, stale, i), stale))
  {
    hide Content, BlockLen, SamplesPerBlock, Last;
    StartGrows(i, n, BlockLen(fmt));
    StartGrows(i, n, SamplesPerBlock(fmt));
    if i < n - 1 {
      ReadoutAt(fmt, data, stale, n - 1, i);
      PieceOfPrefix(Readout(fmt, data, stale, n - 1), Readout(fmt, data, stale, n), i, SamplesPerBlock(fmt));
    }
  }

  lemma ImageRoundTrip(fmt: Format, was: seq<byte>, xs: seq<int32>, counter: uint16, n: nat, stale: int32, i: nat,
                       p: nat)
    requires Buffers(fmt, was, xs, n) && i < n && p < SamplesPerBlock(fmt)
    ensures var at := Start(i, SamplesPerBlock(fmt)) + p;
            && at < Start(n, SamplesPerBlock(fmt))
            && Kept(fmt.type3, Sizes(fmt)[p], xs[at], Readout(fmt, Image(fmt, was, xs, counter, n), stale, n)[at])
  {
    hide Image, Readout, Content, Kept, BlockLen, Sizes, Block, Number, Last, Start;
    var data := Image(fmt, was, xs, counter, n);
    ImageAt(fmt, was, xs, counter, n, i);
    ReadoutAt(fmt, data, stale, n, i);
    var mine := Piece(xs, i, SamplesPerBlock(fmt));
    ContentRoundTrip(fmt, Piece(was, i, BlockLen(fmt)), mine, Number(counter, i),
                     Last(Readout(fmt, data, stale, i), stale), p);
    PieceIndex(xs, i, SamplesPerBlock(fmt), p);
    PieceIndex(Readout(fmt, data, stale, n), i, SamplesPerBlock(fmt), p);
    hide SamplesPerBlock, Piece;
  }

  lemma PieceIndex<T>(s: seq<T>, i: nat, len: nat, p: nat)
    requires Start(i, len) + len <= |s| && p < len
    ensures Piece(s, i, len)[p] == s[Start(i, len) + p]
  {
  }

  lemma ContentRoundTrip(fmt: Format, was: seq<byte>, xs: seq<int32>, counter: uint16, stale: int32, p: nat)
    requires Sized(fmt.tracks) && |was| == BlockLen(fmt) && |xs| == SamplesPerBlock(fmt) && p < SamplesPerBlock(fmt)
    ensures Kept(fmt.type3, Sizes(fmt)[p], xs[p], Content(fmt, Block(fmt, was, xs, counter), stale)[p])
  {
    BlockHoldsItsSamples(fmt);
    PayloadOfBlock(fmt, was, xs, counter);
    BlockRoundTrip(fmt.type3, Sizes(fmt), xs, stale, |Sizes(fmt)|, p);
    hide Block, Values, Payload, Kept, Sizes, BlockLen;
  }

  /** A transfer that was written and is read back gives each sample at its own place: all of it on the
      4-byte tracks of the devices that are not of type 3, its top 24 bits on the others, whatever the
      variable held before. */
  lemma TransferRoundTrip(fmt: Format, was: seq<byte>, xs: seq<int32>, counter: uint16, n: nat, stale: int32, i: nat,
                          j: nat, k: nat)
    requires Buffers(fmt, was, xs, n) && i < n && j < FRAMES_PER_BLOCK && k < |fmt.tracks|
    ensures var ys, at := Readout(fmt, Image(fmt, was, xs, counter, n), stale, n), Place(fmt, i, j, k);
            at < |xs| && at < |ys| && Kept(fmt.type3, fmt.tracks[k], xs[at], ys[at])
  {
    hide Image, Readout, Sizes, Start, Place, Total, BlockLen, Kept, Layout;
    PlaceInBlock(fmt, n, i, j, k);
    AddressInBlock(fmt, i, j, k);
    hide Address;
    ImageRoundTrip(fmt, was, xs, counter, n, stale, i, Start(j, |fmt.tracks|) + k);
  }
}
