/** The recorder (src/main-record.c): the engine's thread fills one buffer with the selected tracks and
    hands it over to a thread that writes files. */
module Recorder {
  import opened Spans
  import Blocks

  type Sample = real

  const BYTES_PER_SAMPLE: nat := 4
  const MAX_BLOCKS: nat := 32

  // ----- The selected tracks -----

  datatype Mask = NoMask | Mask(chars: string)

  predicate Selected(mask: Mask, j: nat) {
    mask.NoMask? || (j < |mask.chars| && mask.chars[j] != '0')
  }

  /** How many of the first n tracks are selected. */
  function Rank(mask: Mask, n: nat): (r: nat)
    ensures r <= n
  {
    if n == 0 then 0 else Rank(mask, n - 1) + if Selected(mask, n - 1) then 1 else 0
  }

  /** buffer.outputs: without a mask the tracks of the device, otherwise what the mask selects,
      whether or not the device has so many tracks. */
  function Outputs(mask: Mask, tracks: nat): nat {
    match mask
    case NoMask => tracks
    case Mask(chars) => Rank(mask, |chars|)
  }

  method CountOutputs(mask: Mask, tracks: nat) returns (outputs: nat)
    ensures outputs == Outputs(mask, tracks)
  {
    if mask.NoMask? { return tracks; }
    outputs := 0;
    for i := 0 to |mask.chars|
      invariant outputs == Rank(mask, i)
    {
      if mask.chars[i] != '0' {
        outputs := outputs + 1;
      }
    }
  }

  /** The mask selects no track that the device does not have. */
  predicate MaskFits(mask: Mask, tracks: nat) {
    mask.Mask? ==> forall j :: tracks <= j < |mask.chars| ==> mask.chars[j] == '0'
  }

  lemma {:induction false} RankGrows(mask: Mask, m: nat, n: nat)
    requires m <= n
    ensures Rank(mask, m) <= Rank(mask, n)
    ensures Rank(mask, m) == Rank(mask, n) <==> forall j :: m <= j < n ==> !Selected(mask, j)
  {
    if m < n { RankGrows(mask, m, n - 1); }
  }

  /** The recorder counts its tracks right exactly when the mask fits. */
  lemma OutputsAreSelected(mask: Mask, tracks: nat)
    ensures Outputs(mask, tracks) >= Rank(mask, tracks)
    ensures Outputs(mask, tracks) == Rank(mask, tracks) <==> MaskFits(mask, tracks)
  {
    match mask {
      case NoMask => AllSelected(tracks);
      case Mask(chars) =>
        if tracks <= |chars| {
          RankGrows(mask, tracks, |chars|);
          forall j | tracks <= j < |chars|
            ensures Selected(mask, j) <==> chars[j] != '0'
          {
          }
        } else {
          RankGrows(mask, |chars|, tracks);
        }
    }
  }

  lemma {:induction false} AllSelected(n: nat)
    ensures Rank(NoMask, n) == n
  {
    if n > 0 { AllSelected(n - 1); }
  }

  // ----- The projection -----

  /** The selected samples of the first n frames of the input and of the first j tracks of the next. */
  function Project(mask: Mask, tracks: nat, input: seq<Sample>, n: nat, j: nat): (p: seq<Sample>)
    requires j <= tracks && Start(n, tracks) + j <= |input|
    ensures |p| == Start(n, Rank(mask, tracks)) + Rank(mask, j)
    decreases n, j
  {
    if j > 0 then
      Project(mask, tracks, input, n, j - 1) + if Selected(mask, j - 1) then [input[Start(n, tracks) + j - 1]] else []
    else if n > 0 then
      Project(mask, tracks, input, n - 1, tracks)
    else
      []
  }

  /** Every selected sample, and where it goes. */
  lemma {:induction false} ProjectionAt(mask: Mask, tracks: nat, input: seq<Sample>, n: nat, j: nat, i: nat, k: nat)
    requires j <= tracks && Start(n, tracks) + j <= |input| && k < tracks && Selected(mask, k)
    requires i < n || (i == n && k < j)
    ensures Start(i, Rank(mask, tracks)) + Rank(mask, k) < |Project(mask, tracks, input, n, j)|
    ensures Start(i, tracks) + k < |input|
    ensures Project(mask, tracks, input, n, j)[Start(i, Rank(mask, tracks)) + Rank(mask, k)]
            == input[Start(i, tracks) + k]
    decreases n, j
  {
    if j > 0 {
      if i < n || k < j - 1 { ProjectionAt(mask, tracks, input, n, j - 1, i, k); }
    } else {
      ProjectionAt(mask, tracks, input, n - 1, tracks, i, k);
    }
  }

  lemma {:induction false} ProjectPrefix(mask: Mask, tracks: nat, a: seq<Sample>, b: seq<Sample>, n: nat, j: nat)
    requires j <= tracks && Start(n, tracks) + j <= |a|
    ensures Project(mask, tracks, a + b, n, j) == Project(mask, tracks, a, n, j)
    decreases n, j
  {
    if j > 0 {
      ProjectPrefix(mask, tracks, a, b, n, j - 1);
    } else if n > 0 {
      ProjectPrefix(mask, tracks, a, b, n - 1, tracks);
    }
  }

  /** One more track of a frame that two inputs share. */
  lemma ProjectTrack(mask: Mask, tracks: nat, a: seq<Sample>, b: seq<Sample>, m: nat, n: nat, j: nat,
                     before: seq<Sample>)
    requires 0 < j <= tracks && Start(m, tracks) + j <= |a| && Start(n, tracks) + j <= |b|
    requires a[Start(m, tracks) + (j - 1)] == b[Start(n, tracks) + (j - 1)]
    requires Project(mask, tracks, a, m, j - 1) == before + Project(mask, tracks, b, n, j - 1)
    ensures Project(mask, tracks, a, m, j) == before + Project(mask, tracks, b, n, j)
  {
    hide Start, Rank;
  }

  lemma NextFrame(mask: Mask, tracks: nat, input: seq<Sample>, n: nat)
    requires n > 0 && Start(n, tracks) <= |input|
    ensures Start(n, tracks) == Start(n - 1, tracks) + tracks
    ensures Project(mask, tracks, input, n, 0) == Project(mask, tracks, input, n - 1, tracks)
  {
  }

  lemma {:induction false} ProjectTail(mask: Mask, tracks: nat, a: seq<Sample>, b: seq<Sample>, m: nat, n: nat, j: nat)
    requires Start(m, tracks) <= |a| && a[Start(m, tracks)..] == b && j <= tracks && Start(n, tracks) + j <= |b|
    ensures Start(m + n, tracks) == Start(m, tracks) + Start(n, tracks)
    ensures Project(mask, tracks, a, m + n, j) == Project(mask, tracks, a, m, 0) + Project(mask, tracks, b, n, j)
    decreases n, j
  {
    hide Project, Rank, Start;
    StartSum(m, n, tracks);
    if j > 0 {
      ProjectTail(mask, tracks, a, b, m, n, j - 1);
      ProjectTrack(mask, tracks, a, b, m + n, n, j, Project(mask, tracks, a, m, 0));
    } else if n > 0 {
      NextFrame(mask, tracks, a, m + n);
      NextFrame(mask, tracks, b, n);
      ProjectTail(mask, tracks, a, b, m, n - 1, tracks);
    } else {
      NoFrame(mask, tracks, b);
    }
  }

  lemma NoFrame(mask: Mask, tracks: nat, input: seq<Sample>)
    ensures Start(0, tracks) == 0 && Project(mask, tracks, input, 0, 0) == []
  {
  }

  /** What is heard in two parts is projected in two parts. */
  lemma ProjectSum(mask: Mask, tracks: nat, a: seq<Sample>, b: seq<Sample>, m: nat, n: nat)
    requires |a| == Start(m, tracks) && Start(n, tracks) <= |b|
    ensures Start(m + n, tracks) == |a| + Start(n, tracks)
    ensures Project(mask, tracks, a + b, m + n, 0) == Project(mask, tracks, a, m, 0) + Project(mask, tracks, b, n, 0)
  {
    hide Project, Rank, Start;
    ProjectTail(mask, tracks, a + b, b, m, n, 0);
    ProjectPrefix(mask, tracks, a, b, m, 0);
  }

  // ----- Writing to the buffer -----

  datatype Status = End | Empty | Ready

  /** The shared buffer. */
  datatype Buffer = Buffer(pending: seq<Sample>, disk: seq<Sample>, diskSamples: nat, diskFrames: nat, frames: nat,
                           status: Status)

  /** The options of the recorder and the tracks of the device. */
  datatype Setup = Setup(mask: Mask, tracks: nat, blocks: nat, kilobytes: nat)

  /** What the recorder checks, and that the size of the buffer is not zero, which it does not check. */
  predicate ValidSetup(c: Setup) {
    c.tracks > 0 && Outputs(c.mask, c.tracks) > 0 && 0 < c.blocks <= MAX_BLOCKS && c.kilobytes > 0
  }

  /** buffer.len, which is in bytes where it is compared and in samples where it is allocated. */
  function Len(c: Setup): nat {
    c.kilobytes * 1000 * Outputs(c.mask, c.tracks)
  }

  /** The frames of one call of the engine. */
  function FramesPerTransfer(c: Setup): nat {
    Blocks.FRAMES_PER_BLOCK * c.blocks
  }

  predicate ValidBuffer(c: Setup, b: Buffer) {
    |b.pending| <= Len(c) && |b.disk| == Len(c) && b.diskSamples <= Len(c)
  }

  function WholeFrames(n: nat, size: nat): (w: nat)
    requires size > 0
    ensures w <= n
  {
    n / size * size
  }

  /** The locked section: the pending samples, as far as they are frames, go to the other thread. */
  function HandOver(c: Setup, b: Buffer): Buffer
    requires ValidSetup(c) && ValidBuffer(c, b)
  {
    var outputs := Outputs(c.mask, c.tracks);
    var copied := WholeFrames(|b.pending|, outputs);
    b.(pending := [], disk := b.pending[..copied] + b.disk[copied..], diskSamples := |b.pending|,
       diskFrames := |b.pending| / outputs, frames := b.frames + |b.pending| / outputs, status := Ready)
  }

  /** What the other thread is going to write. */
  function Chunk(b: Buffer): seq<Sample>
    requires b.diskSamples <= |b.disk|
  {
    b.disk[..b.diskSamples]
  }

  function Frames(c: Setup, input: seq<Sample>): (n: nat)
    requires c.tracks > 0
    ensures Start(n, c.tracks) <= |input|
  {
    StartIsProduct(|input| / c.tracks, c.tracks);
    |input| / c.tracks
  }

  predicate HandsOver(c: Setup, b: Buffer, input: seq<Sample>)
    requires c.tracks > 0
  {
    (|b.pending| + Frames(c, input) * Outputs(c.mask, c.tracks)) * BYTES_PER_SAMPLE >= Len(c)
  }

  /** One call is not more than the buffer holds. */
  predicate Fits(c: Setup, input: seq<Sample>)
    requires c.tracks > 0
  {
    Frames(c, input) * Outputs(c.mask, c.tracks) <= Len(c)
  }

  function Written(c: Setup, b: Buffer, input: seq<Sample>): (w: Buffer)
    requires ValidSetup(c) && ValidBuffer(c, b)
  {
    var ready := if HandsOver(c, b, input) then HandOver(c, b) else b;
    ready.(pending := ready.pending + Project(c.mask, c.tracks, input, Frames(c, input), 0))
  }

  lemma WrittenIsValid(c: Setup, b: Buffer, input: seq<Sample>)
    requires ValidSetup(c) && ValidBuffer(c, b) && Fits(c, input)
    ensures ValidBuffer(c, Written(c, b, input))
  {
    var n := Frames(c, input);
    OutputsAreSelected(c.mask, c.tracks);
    StartIsProduct(n, Rank(c.mask, c.tracks));
    Times(n, Rank(c.mask, c.tracks), Outputs(c.mask, c.tracks));
  }

  /** Every call of the engine fits exactly when the buffer's size is not zero. */
  lemma TransferFits(c: Setup, input: seq<Sample>)
    requires c.tracks > 0 && Outputs(c.mask, c.tracks) > 0 && 0 < c.blocks <= MAX_BLOCKS
    requires |input| == Start(FramesPerTransfer(c), c.tracks)
    ensures Frames(c, input) == FramesPerTransfer(c)
    ensures Fits(c, input) <==> c.kilobytes > 0
  {
    var n, outputs := FramesPerTransfer(c), Outputs(c.mask, c.tracks);
    StartIsProduct(n, c.tracks);
    Quotient(n, 0, c.tracks);
    if c.kilobytes > 0 { Grows(n, c.kilobytes * 1000, outputs); }
    Grows(1, n, outputs);
  }

  lemma Times(n: nat, a: nat, b: nat)
    requires a <= b
    ensures n * a <= n * b
  {
  }

  /** There is room for the next selected sample. */
  lemma RoomLeft(c: Setup, pending: seq<Sample>, input: seq<Sample>, i: nat, j: nat)
    requires c.tracks > 0 && i < Frames(c, input) && j < c.tracks
    requires |pending| + |Project(c.mask, c.tracks, input, Frames(c, input), 0)| <= Len(c)
    ensures Start(i, c.tracks) + j < |input|
    ensures Selected(c.mask, j) ==> |pending| + |Project(c.mask, c.tracks, input, i, j)| < Len(c)
  {
    StartGrows(i, Frames(c, input), c.tracks);
    StartGrows(i, Frames(c, input), Rank(c.mask, c.tracks));
    RankGrows(c.mask, j + 1, c.tracks);
  }

  lemma FrameProjected(c: Setup, input: seq<Sample>, i: nat, n: nat)
    requires i < n && c.tracks > 0 && Start(n, c.tracks) <= |input|
    ensures Start(i + 1, c.tracks) == Start(i, c.tracks) + c.tracks <= |input|
    ensures Project(c.mask, c.tracks, input, i + 1, 0) == Project(c.mask, c.tracks, input, i, c.tracks)
  {
    StartGrows(i, n, c.tracks);
  }

  lemma TrackProjected(c: Setup, input: seq<Sample>, i: nat, j: nat, n: nat, before: seq<Sample>)
    requires i < n && j < c.tracks && Start(n, c.tracks) <= |input|
    ensures Start(i, c.tracks) + j + 1 <= |input|
    ensures var now := before + Project(c.mask, c.tracks, input, i, j);
            before + Project(c.mask, c.tracks, input, i, j + 1)
            == now + if Selected(c.mask, j) then [input[Start(i, c.tracks) + j]] else []
  {
    StartGrows(i, n, c.tracks);
  }

  class TrackBuffer {
    const c: Setup
    const len: nat
    const mem: array<Sample>
    const disk: array<Sample>
    var pos: nat
    var diskSamples: nat
    var diskFrames: nat
    var frames: nat
    var status: Status

    ghost predicate Valid()
      reads this
    {
      && ValidSetup(c) && len == Len(c) && mem.Length == len && disk.Length == len && mem != disk
      && pos <= len && diskSamples <= len
    }

    ghost function View(): Buffer
      reads this, mem, disk
      requires Valid()
    {
      Buffer(mem[..pos], disk[..], diskSamples, diskFrames, frames, status)
    }

    constructor (c: Setup)
      requires ValidSetup(c)
      ensures Valid() && this.c == c && fresh(mem) && fresh(disk)
      ensures View().pending == [] && View().diskSamples == 0 && View().frames == 0 && View().status == Ready
    {
      this.c := c;
      var outputs := CountOutputs(c.mask, c.tracks);
      var size := c.kilobytes * 1000 * outputs;
      len := size;
      mem := new Sample[size](_ => 0.0);
      disk := new Sample[size](_ => 0.0);
      pos, diskSamples, diskFrames, frames, status := 0, 0, 0, 0, Ready;
    }

    method HandOverPending()
      requires Valid()
      modifies this, disk
      ensures Valid() && View() == HandOver(c, old(View())) && pos == 0
    {
      var outputs := CountOutputs(c.mask, c.tracks);
      status := Ready;
      diskSamples := pos;
      diskFrames := diskSamples / outputs;
      ghost var was := disk[..];
      var n := diskFrames * outputs;
      assert n == WholeFrames(pos, outputs);
      forall i | 0 <= i < n {
        disk[i] := mem[i];
      }
      assert disk[..] == mem[..n] + was[n..];
      assert mem[..pos][..n] == mem[..n];
      frames := frames + diskFrames;
      pos := 0;
    }

    /** buffer_write. */
    method Write(buf: array<Sample>)
      requires Valid() && buf != mem && buf != disk && Fits(c, buf[..])
      modifies this, mem, disk
      ensures Valid() && buf[..] == old(buf[..])
      ensures View() == Written(c, old(View()), buf[..])
    {
      ghost var before, input := View(), buf[..];
      var outputs := CountOutputs(c.mask, c.tracks);
      var n := buf.Length / c.tracks;
      if (pos + n * outputs) * BYTES_PER_SAMPLE >= len {
        HandOverPending();
      }
      ghost var ready := View();
      assert n == Frames(c, input) && ready == if HandsOver(c, before, input) then HandOver(c, before) else before;
      Fill(buf, n, before);
    }

    /** A sample of the input, if its track is selected. */
    method Take(selected: bool, x: Sample)
      requires Valid() && (selected ==> pos < len)
      modifies this`pos, mem
      ensures Valid() && mem[..pos] == old(mem[..pos]) + if selected then [x] else []
    {
      if selected {
        mem[pos] := x;
        pos := pos + 1;
      }
    }

    /** The selected tracks of n frames. */
    method Fill(buf: array<Sample>, n: nat, ghost before: Buffer)
      requires Valid() && buf != mem && buf != disk && Fits(c, buf[..]) && n == Frames(c, buf[..])
      requires ValidBuffer(c, before) && View() == if HandsOver(c, before, buf[..]) then HandOver(c, before) else before
      modifies this`pos, mem
      ensures Valid() && buf[..] == old(buf[..])
      ensures View() == Written(c, before, buf[..])
    {
      ghost var pending, input := mem[..pos], buf[..];
      WrittenIsValid(c, before, input);
      NoFrame(c.mask, c.tracks, input);
      assert |pending| + |Project(c.mask, c.tracks, input, n, 0)| <= len;
      hide Project, HandOver, HandsOver, Start, Rank, Fits, Frames;
      var p: nat := 0;
      for i := 0 to n
        invariant Valid() && buf[..] == input && p == Start(i, c.tracks) <= |input|
        invariant mem[..pos] == pending + Project(c.mask, c.tracks, input, i, 0)
      {
        FrameProjected(c, input, i, n);
        FillFrame(buf, p, i, pending);
        p := p + c.tracks;
      }
    }

    /** The selected tracks of frame i. */
    method FillFrame(buf: array<Sample>, p: nat, i: nat, ghost pending: seq<Sample>)
      requires Valid() && buf != mem && i < Frames(c, buf[..])
      requires |pending| + |Project(c.mask, c.tracks, buf[..], Frames(c, buf[..]), 0)| <= len
      requires p == Start(i, c.tracks) <= buf.Length
      requires mem[..pos] == pending + Project(c.mask, c.tracks, buf[..], i, 0)
      modifies this`pos, mem
      ensures Valid() && buf[..] == old(buf[..])
      ensures Start(i, c.tracks) + c.tracks <= buf.Length
      ensures mem[..pos] == pending + Project(c.mask, c.tracks, buf[..], i, c.tracks)
    {
      hide Project, Start, Rank, Frames, Outputs, ValidSetup;
      ghost var input := buf[..];
      for j := 0 to c.tracks
        invariant Valid() && buf[..] == input && p + j <= |input|
        invariant mem[..pos] == pending + Project(c.mask, c.tracks, input, i, j)
      {
        RoomLeft(c, pending, input, i, j);
        TrackProjected(c, input, i, j, Frames(c, input), pending);
        Take(c.mask.NoMask? || (j < |c.mask.chars| && c.mask.chars[j] != '0'), buf[p + j]);
      }
    }

    /** The locked section of dump_buffer. */
    method Dump() returns (chunk: seq<Sample>)
      requires Valid()
      modifies this`status
      ensures Valid() && chunk == Chunk(old(View()))
      ensures View() == old(View()).(status := Empty)
    {
      chunk := disk[..diskSamples];
      status := Empty;
    }
  }
}
