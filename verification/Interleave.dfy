/** The two copy loops between the engine's frames and JACK's buffers, one buffer for each track. */
module Interleave {
  import opened Spans

  type Sample = real

  /** Where the sample of track j of frame i is among the frames of w tracks. */
  function Index(i: nat, j: nat, w: nat): nat {
    i * w + j
  }

  /** A cell of the separate buffers. */
  datatype Cell = Cell(track: nat, frame: nat)

  /** The cell that belongs to place p among the frames. */
  function CellAt(p: nat, w: nat): Cell
    requires w > 0
  {
    Cell(p % w, p / w)
  }

  lemma IndexOfCell(i: nat, j: nat, w: nat)
    requires j < w
    ensures CellAt(Index(i, j, w), w) == Cell(j, i)
  {
    Quotient(i, j, w);
  }

  lemma CellOfIndex(p: nat, w: nat)
    requires w > 0
    ensures p % w < w && Index(p / w, p % w, w) == p
  {
  }

  lemma IndexFits(i: nat, j: nat, w: nat, n: nat)
    requires i < n && j < w
    ensures Index(i, j, w) < n * w
  {
    Grows(i + 1, n, w);
    assert (i + 1) * w == i * w + w;
  }

  lemma FrameFits(p: nat, w: nat, n: nat)
    requires w > 0 && p < n * w
    ensures p / w < n
  {
    CellOfIndex(p, w);
    if p / w >= n { Grows(n, p / w, w); }
  }

  /** As tracks. */
  function Deinterleaved(f: seq<Sample>, w: nat, n: nat): (tracks: seq<seq<Sample>>)
    requires |f| == n * w
    ensures |tracks| == w
    ensures forall j :: 0 <= j < w ==> |tracks[j]| == n
  {
    seq(w, j requires 0 <= j < w => Track(f, w, n, j))
  }

  function Track(f: seq<Sample>, w: nat, n: nat, j: nat): (track: seq<Sample>)
    requires |f| == n * w && j < w
    ensures |track| == n
  {
    seq(n, i requires 0 <= i < n => IndexFits(i, j, w, n); f[Index(i, j, w)])
  }

  predicate Even(tracks: seq<seq<Sample>>, n: nat) {
    forall j :: 0 <= j < |tracks| ==> |tracks[j]| == n
  }

  /** As frames. */
  function Interleaved(tracks: seq<seq<Sample>>, n: nat): (f: seq<Sample>)
    requires Even(tracks, n)
    ensures |f| == n * |tracks|
  {
    seq(n * |tracks|, p requires 0 <= p < n * |tracks| =>
      CellOfIndex(p, |tracks|); FrameFits(p, |tracks|, n); tracks[p % |tracks|][p / |tracks|])
  }

  lemma TrackAt(f: seq<Sample>, w: nat, n: nat, j: nat, i: nat)
    requires |f| == n * w && j < w && i < n
    ensures Index(i, j, w) < |f| && Track(f, w, n, j)[i] == f[Index(i, j, w)]
  {
    IndexFits(i, j, w, n);
    hide Index;
  }

  /** What was taken apart is put together again, for any number of frames and tracks. */
  lemma InterleaveInverts(f: seq<Sample>, w: nat, n: nat)
    requires |f| == n * w
    ensures Interleaved(Deinterleaved(f, w, n), n) == f
  {
    var tracks := Deinterleaved(f, w, n);
    forall p | 0 <= p < n * w
      ensures Interleaved(tracks, n)[p] == f[p]
    {
      CellOfIndex(p, w);
      FrameFits(p, w, n);
      TrackAt(f, w, n, p % w, p / w);
      hide Index, Track;
      assert tracks[p % w] == Track(f, w, n, p % w);
    }
  }

  /** And the other way round. */
  lemma DeinterleaveInverts(tracks: seq<seq<Sample>>, n: nat)
    requires Even(tracks, n)
    ensures Deinterleaved(Interleaved(tracks, n), |tracks|, n) == tracks
  {
    var w, f := |tracks|, Interleaved(tracks, n);
    forall j | 0 <= j < w
      ensures Deinterleaved(f, w, n)[j] == tracks[j]
    {
      forall i | 0 <= i < n
        ensures Track(f, w, n, j)[i] == tracks[j][i]
      {
        IndexOfCell(i, j, w);
        IndexFits(i, j, w, n);
      }
      assert Track(f, w, n, j) == tracks[j];
    }
  }

  /** The first p places in order: every cell of n frames exactly once. */
  ghost predicate InOrder(order: seq<Cell>, w: nat) {
    forall p :: 0 <= p < |order| ==> w > 0 && order[p] == CellAt(p, w)
  }

  lemma EachCellOnce(order: seq<Cell>, w: nat, n: nat)
    requires InOrder(order, w) && |order| == n * w
    ensures forall p, q :: 0 <= p < q < |order| ==> order[p] != order[q]
    ensures forall p :: 0 <= p < |order| ==> order[p].track < w && order[p].frame < n
    ensures forall i, j :: 0 <= i < n && 0 <= j < w ==> Cell(j, i) in order
  {
    forall p, q | 0 <= p < q < |order|
      ensures order[p] != order[q]
    {
      CellOfIndex(p, w);
      CellOfIndex(q, w);
    }
    forall p | 0 <= p < |order|
      ensures order[p].track < w && order[p].frame < n
    {
      CellOfIndex(p, w);
      FrameFits(p, w, n);
    }
    forall i, j | 0 <= i < n && 0 <= j < w
      ensures Cell(j, i) in order
    {
      IndexFits(i, j, w, n);
      IndexOfCell(i, j, w);
      assert order[Index(i, j, w)] == Cell(j, i);
    }
  }

  predicate Apart(buffer: seq<array<Sample>>, f: array<Sample>, n: nat) {
    && (forall j :: 0 <= j < |buffer| ==> buffer[j] != f && buffer[j].Length == n)
    && (forall j, k :: 0 <= j < k < |buffer| ==> buffer[j] != buffer[k])
  }

  function Contents(buffer: seq<array<Sample>>): (tracks: seq<seq<Sample>>)
    reads buffer
    ensures |tracks| == |buffer|
    ensures forall j :: 0 <= j < |buffer| ==> tracks[j] == buffer[j][..]
  {
    if buffer == [] then [] else [buffer[0][..]] + Contents(buffer[1..])
  }

  /** One sample to one cell, and to no other. */
  method Scatter(f: array<Sample>, n: nat, buffer: seq<array<Sample>>, i: nat, j: nat, p: nat)
    returns (ghost written: Cell)
    requires Apart(buffer, f, n) && i < n && j < |buffer| && p == Index(i, j, |buffer|) < f.Length
    requires forall k :: 0 <= k < i ==> Scattered(buffer, f, k, |buffer|)
    requires Scattered(buffer, f, i, j)
    modifies buffer
    ensures f[..] == old(f[..])
    ensures forall k :: 0 <= k < i ==> Scattered(buffer, f, k, |buffer|)
    ensures Scattered(buffer, f, i, j + 1)
    ensures written == Cell(j, i) && buffer[j][i] == f[p]
    ensures forall l, k :: 0 <= l < |buffer| && 0 <= k < n && Cell(l, k) != written ==>
                             buffer[l][k] == old(buffer[l][k])
  {
    hide Index;
    ghost var w := |buffer|;
    written := Cell(j, i);
    buffer[j][i] := f[p];
    forall k | 0 <= k < i
      ensures Scattered(buffer, f, k, w)
    {
      assert old(Scattered(buffer, f, k, w));
    }
  }

  /** jclient_copy_o2j_audio. `order` tells which cell was written when. */
  method CopyO2j(f: array<Sample>, n: nat, buffer: seq<array<Sample>>) returns (ghost order: seq<Cell>)
    requires f.Length == n * |buffer| && Apart(buffer, f, n)
    modifies buffer
    ensures f[..] == old(f[..])
    ensures Contents(buffer) == Deinterleaved(f[..], |buffer|, n)
    ensures InOrder(order, |buffer|) && |order| == f.Length
  {
    var w := |buffer|;
    var p: nat := 0;
    order := [];
    IndexEnds(n, w);
    hide Index, CellAt;
    for i := 0 to n
      invariant p == Index(i, 0, w) && f[..] == old(f[..])
      invariant |order| == p && InOrder(order, w)
      invariant forall k :: 0 <= k < i ==> Scattered(buffer, f, k, w)
    {
      for j := 0 to w
        invariant p == Index(i, j, w) && f[..] == old(f[..])
        invariant |order| == p && InOrder(order, w)
        invariant forall k :: 0 <= k < i ==> Scattered(buffer, f, k, w)
        invariant Scattered(buffer, f, i, j)
      {
        hide Scattered;
        IndexFits(i, j, w, n);
        IndexOfCell(i, j, w);
        ghost var written := Scatter(f, n, buffer, i, j, p);
        order := order + [written];
        NextIndex(i, j, w);
        p := p + 1;
      }
      EndOfFrame(i, w);
    }
    AllScattered(f, n, buffer);
  }

  lemma AllScattered(f: array<Sample>, n: nat, buffer: seq<array<Sample>>)
    requires f.Length == n * |buffer| && Apart(buffer, f, n)
    requires forall k :: 0 <= k < n ==> Scattered(buffer, f, k, |buffer|)
    ensures Contents(buffer) == Deinterleaved(f[..], |buffer|, n)
  {
    var w := |buffer|;
    forall j | 0 <= j < w
      ensures buffer[j][..] == Track(f[..], w, n, j)
    {
      var track := Track(f[..], w, n, j);
      forall i | 0 <= i < n
        ensures buffer[j][i] == track[i]
      {
        assert Scattered(buffer, f, i, w);
        IndexFits(i, j, w, n);
        hide Index;
      }
    }
  }

  function At(f: array<Sample>, p: nat): Sample
    reads f
  {
    if p < f.Length then f[p] else 0.0
  }

  /** The samples of the first j tracks of frame i have been copied. */
  ghost predicate Scattered(buffer: seq<array<Sample>>, f: array<Sample>, i: nat, j: nat)
    reads f, buffer
  {
    j <= |buffer| && forall l :: 0 <= l < j ==> i < buffer[l].Length && buffer[l][i] == At(f, Index(i, l, |buffer|))
  }

  /** jclient_copy_j2o_audio. */
  method CopyJ2o(f: array<Sample>, n: nat, buffer: seq<array<Sample>>) returns (ghost order: seq<Cell>)
    requires f.Length == n * |buffer| && forall j :: 0 <= j < |buffer| ==> buffer[j] != f && buffer[j].Length == n
    modifies f
    ensures Contents(buffer) == old(Contents(buffer)) && Even(Contents(buffer), n)
    ensures f[..] == Interleaved(Contents(buffer), n)
    ensures InOrder(order, |buffer|) && |order| == f.Length
  {
    var w := |buffer|;
    var p: nat := 0;
    order := [];
    IndexEnds(n, w);
    hide Index, CellAt, Interleaved, Contents;
    for i := 0 to n
      invariant p == Index(i, 0, w)
      invariant |order| == p && InOrder(order, w)
      invariant Gathered(buffer, f, p)
    {
      for j := 0 to w
        invariant p == Index(i, j, w)
        invariant |order| == p && InOrder(order, w)
        invariant Gathered(buffer, f, p)
      {
        IndexFits(i, j, w, n);
        IndexOfCell(i, j, w);
        f[p] := buffer[j][i];
        order := order + [Cell(j, i)];
        NextIndex(i, j, w);
        p := p + 1;
      }
      EndOfFrame(i, w);
    }
    AllGathered(f, n, buffer);
    SameContents(buffer);
  }

  twostate lemma SameContents(buffer: seq<array<Sample>>)
    requires forall j :: 0 <= j < |buffer| ==> buffer[j][..] == old(buffer[j][..])
    ensures Contents(buffer) == old(Contents(buffer))
  {
  }

  lemma AllGathered(f: array<Sample>, n: nat, buffer: seq<array<Sample>>)
    requires f.Length == n * |buffer| && forall j :: 0 <= j < |buffer| ==> buffer[j].Length == n
    requires Gathered(buffer, f, f.Length)
    ensures Even(Contents(buffer), n) && f[..] == Interleaved(Contents(buffer), n)
  {
    var w := |buffer|;
    forall q | 0 <= q < n * w
      ensures f[q] == Interleaved(Contents(buffer), n)[q]
    {
      CellOfIndex(q, w);
      FrameFits(q, w, n);
    }
  }

  lemma IndexEnds(n: nat, w: nat)
    ensures Index(0, 0, w) == 0 && Index(n, 0, w) == n * w
  {
  }

  lemma NextIndex(i: nat, j: nat, w: nat)
    ensures Index(i, j, w) + 1 == Index(i, j + 1, w)
  {
  }

  lemma EndOfFrame(i: nat, w: nat)
    ensures Index(i, w, w) == Index(i + 1, 0, w)
  {
  }

  function Get(buffer: seq<array<Sample>>, c: Cell): Sample
    reads buffer
  {
    if c.track < |buffer| && c.frame < buffer[c.track].Length then buffer[c.track][c.frame] else 0.0
  }

  /** The first p places have been filled. */
  ghost predicate Gathered(buffer: seq<array<Sample>>, f: array<Sample>, p: nat)
    reads f, buffer
  {
    p <= f.Length && forall q :: 0 <= q < p ==> |buffer| > 0 && f[q] == Get(buffer, CellAt(q, |buffer|))
  }

  /** Audio that goes through both loops comes back. */
  method Loopback(f: array<Sample>, g: array<Sample>, n: nat, buffer: seq<array<Sample>>)
    requires f.Length == g.Length == n * |buffer| && f != g && Apart(buffer, f, n) && Apart(buffer, g, n)
    modifies buffer, g
    ensures g[..] == f[..] == old(f[..])
  {
    ghost var order := CopyO2j(f, n, buffer);
    InterleaveInverts(f[..], |buffer|, n);
    order := CopyJ2o(g, n, buffer);
  }
}
