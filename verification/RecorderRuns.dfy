/** The recorder's two threads. A step is one locked section with the thread-local work next to it; the
    dumper looks at the status in one step and writes in a later one. */
module RecorderRuns {
  import opened Spans
  import opened Recorder

  datatype Dumper = Polling | Dumping | Finished

  /** `ended` is set once the engine's thread has been joined. The rest is history: `heard` all the input,
      in so many `transfers`, `held` of them since the last hand-over, `chunks` what was handed over,
      starting with the empty buffer that is ready from the beginning, and `dumped` which chunk each part
      of the file was. */
  datatype State = State(b: Buffer, file: seq<seq<Sample>>, dumper: Dumper, ended: bool,
                         heard: seq<Sample>, transfers: nat, held: nat, chunks: seq<seq<Sample>>, dumped: seq<nat>)

  datatype Event = Deliver(input: seq<Sample>) | Stop | DumperMoves

  predicate ValidState(c: Setup, s: State) {
    ValidBuffer(c, s.b) && |s.chunks| > 0
  }

  /** The engine only delivers whole transfers. */
  predicate ValidEvent(c: Setup, ev: Event) {
    ev.Deliver? ==> |ev.input| == Start(FramesPerTransfer(c), c.tracks)
  }

  function Delivered(c: Setup, s: State, input: seq<Sample>): (s': State)
    requires ValidSetup(c) && ValidState(c, s) && ValidEvent(c, Deliver(input))
    ensures ValidState(c, s')
  {
    TransferFits(c, input);
    WrittenIsValid(c, s.b, input);
    var b := Written(c, s.b, input);
    var over := HandsOver(c, s.b, input);
    s.(b := b, heard := s.heard + input, transfers := s.transfers + 1,
       held := if over then 1 else s.held + 1,
       chunks := if over then s.chunks + [Chunk(b)] else s.chunks)
  }

  function DumperStep(c: Setup, s: State): State
    requires ValidState(c, s)
  {
    match s.dumper
    case Polling =>
      s.(dumper := match s.b.status case End => Finished case Empty => Polling case Ready => Dumping)
    case Dumping =>
      s.(dumper := Polling, b := s.b.(status := Empty), file := s.file + [Chunk(s.b)],
         dumped := s.dumped + [|s.chunks| - 1])
    case Finished => s
  }

  function Next(c: Setup, s: State, ev: Event): (s': State)
    requires ValidSetup(c) && ValidState(c, s) && ValidEvent(c, ev)
    ensures ValidState(c, s')
  {
    match ev
    case Deliver(input) => if s.ended then s else Delivered(c, s, input)
    case Stop => if s.ended then s else s.(ended := true, b := s.b.(status := End))
    case DumperMoves => DumperStep(c, s)
  }

  /** After setup the buffer is marked ready, with nothing in it. */
  predicate Initial(c: Setup, s: State) {
    && ValidBuffer(c, s.b) && s.b.pending == [] && s.b.diskSamples == 0 && s.b.frames == 0 && s.b.status == Ready
    && s.file == [] && s.dumper == Polling && !s.ended
    && s.heard == [] && s.transfers == 0 && s.held == 0 && s.chunks == [[]] && s.dumped == []
  }

  predicate ValidEvents(c: Setup, events: seq<Event>) {
    forall k :: 0 <= k < |events| ==> ValidEvent(c, events[k])
  }

  function Run(c: Setup, s: State, events: seq<Event>): (s': State)
    requires ValidSetup(c) && ValidState(c, s) && ValidEvents(c, events)
    ensures ValidState(c, s')
  {
    if events == [] then s
    else Next(c, Run(c, s, events[..|events| - 1]), events[|events| - 1])
  }

  // ----- Nothing is lost between the buffers -----

  function Flat(chunks: seq<seq<Sample>>): seq<Sample> {
    if chunks == [] then [] else Flat(chunks[..|chunks| - 1]) + chunks[|chunks| - 1]
  }

  /** What was handed over, and what is pending, is the projection of all the input; and the header of the
      file counts the frames that were handed over. */
  predicate Conserved(c: Setup, s: State) {
    && |s.heard| == Start(s.transfers * FramesPerTransfer(c), c.tracks)
    && Flat(s.chunks) + s.b.pending == Project(c.mask, c.tracks, s.heard, s.transfers * FramesPerTransfer(c), 0)
    && |Flat(s.chunks)| == s.b.frames * Outputs(c.mask, c.tracks)
  }

  // ----- When hand-overs are whole -----

  /** The samples that a transfer adds to the pending ones. */
  function Gain(c: Setup): nat {
    Start(FramesPerTransfer(c), Rank(c.mask, c.tracks))
  }

  /** After k transfers the next one is taken not to fit. */
  predicate FullAfter(c: Setup, k: nat) {
    (Start(k, Gain(c)) + FramesPerTransfer(c) * Outputs(c.mask, c.tracks)) * BYTES_PER_SAMPLE >= Len(c)
  }

  lemma {:induction false} GainGrows(k: nat, gain: nat)
    requires gain > 0
    ensures Start(k, gain) >= k
  {
    if k > 0 { GainGrows(k - 1, gain); }
  }

  /** The least number of transfers, from k on, after which the buffer is full. */
  function FirstFull(c: Setup, k: nat): (n: nat)
    requires Gain(c) > 0
    ensures k <= n && FullAfter(c, n)
    ensures forall i :: k <= i < n ==> !FullAfter(c, i)
    decreases Len(c) - k
  {
    GainGrows(k, Gain(c));
    if FullAfter(c, k) then k else FirstFull(c, k + 1)
  }

  /** The transfers that a hand-over hands over: every hand-over but a first one of nothing. */
  function TransfersHeld(c: Setup): nat
    requires Gain(c) > 0
  {
    FirstFull(c, 1)
  }

  /** The pending samples are whole frames of the file whenever they are handed over. This depends on
      nothing but the options and the device. */
  predicate HandsOverFrames(c: Setup)
    requires Outputs(c.mask, c.tracks) > 0
  {
    Gain(c) > 0 ==> Start(TransfersHeld(c), Gain(c)) % Outputs(c.mask, c.tracks) == 0
  }

  lemma IsFirstFull(c: Setup, k: nat)
    requires Gain(c) > 0 && k >= 1 && FullAfter(c, k) && (k == 1 || !FullAfter(c, k - 1))
    ensures TransfersHeld(c) == k
  {
    if TransfersHeld(c) < k { StartGrows(TransfersHeld(c), k - 1, Gain(c)); }
  }

  lemma MultipleOfMultiple(k: nat, a: nat, b: nat)
    requires b > 0
    ensures a % b == 0 ==> Start(k, a) % b == 0
  {
    if a % b == 0 {
      StartIsProduct(k, a);
      var q := a / b;
      assert a == q * b;
      assert k * a == (k * q) * b;
      Quotient(k * q, 0, b);
    }
  }

  /** Whatever the size of the buffer: every number of transfers is whole frames of the file exactly when one
      transfer is. */
  lemma HandOversAreWhole(c: Setup)
    requires Outputs(c.mask, c.tracks) > 0
    ensures (forall k: nat :: Start(k, Gain(c)) % Outputs(c.mask, c.tracks) == 0)
            <==> Gain(c) % Outputs(c.mask, c.tracks) == 0
    ensures Gain(c) % Outputs(c.mask, c.tracks) == 0 ==> HandsOverFrames(c)
  {
    var outputs := Outputs(c.mask, c.tracks);
    assert Start(1, Gain(c)) == Start(0, Gain(c)) + Gain(c) == Gain(c);
    forall k: nat
      ensures Gain(c) % outputs == 0 ==> Start(k, Gain(c)) % outputs == 0
    {
      MultipleOfMultiple(k, Gain(c), outputs);
    }
  }

  /** So a mask that fits is enough... */
  lemma FittingMaskIsWhole(c: Setup)
    requires Outputs(c.mask, c.tracks) > 0 && MaskFits(c.mask, c.tracks)
    ensures Gain(c) % Outputs(c.mask, c.tracks) == 0 && HandsOverFrames(c)
  {
    OutputsAreSelected(c.mask, c.tracks);
    StartIsProduct(FramesPerTransfer(c), Rank(c.mask, c.tracks));
    Quotient(FramesPerTransfer(c), 0, Outputs(c.mask, c.tracks));
    HandOversAreWhole(c);
  }

  function Ones(n: nat): Mask {
    Mask(seq(n, _ => '1'))
  }

  lemma {:induction false} RankOfOnes(n: nat, m: nat)
    requires m <= n
    ensures Rank(Ones(n), m) == m
  {
    if m > 0 { RankOfOnes(n, m - 1); }
  }

  /** ...but not needed: fourteen tracks selected on a device that has twelve. */
  lemma OverlongMaskCanBeWhole(blocks: nat, kilobytes: nat)
    ensures var c := Setup(Ones(14), 12, blocks, kilobytes);
            Outputs(c.mask, c.tracks) == 14 && !MaskFits(c.mask, c.tracks) && HandsOverFrames(c)
  {
    var c := Setup(Ones(14), 12, blocks, kilobytes);
    RankOfOnes(14, 14);
    RankOfOnes(14, 12);
    assert Ones(14).chars[12] == '1';
    StartIsProduct(FramesPerTransfer(c), 12);
    assert Gain(c) == (6 * blocks) * 14;
    Quotient(6 * blocks, 0, 14);
    hide Gain, HandsOverFrames;
    HandOversAreWhole(c);
  }

  /** And without it hand-overs can tear: two tracks selected on a device that has one. */
  lemma OverlongMaskCanTear()
    ensures var c := Setup(Ones(2), 1, 1, 2); ValidSetup(c) && !HandsOverFrames(c)
  {
    var c := Setup(Ones(2), 1, 1, 2);
    RankOfOnes(2, 2);
    RankOfOnes(2, 1);
    StartIsProduct(7, 1);
    StartIsProduct(140, 7);
    StartIsProduct(141, 7);
    assert Gain(c) == 7 && Len(c) == 4000;
    IsFirstFull(c, 141);
  }

  /** The size of the buffer matters: half of that, and the same odd transfers make whole hand-overs. */
  lemma OddTransfersCanBeWhole()
    ensures var c := Setup(Ones(2), 1, 1, 1);
            ValidSetup(c) && Gain(c) % Outputs(c.mask, c.tracks) != 0 && HandsOverFrames(c)
  {
    var c := Setup(Ones(2), 1, 1, 1);
    RankOfOnes(2, 2);
    RankOfOnes(2, 1);
    StartIsProduct(7, 1);
    StartIsProduct(69, 7);
    StartIsProduct(70, 7);
    assert Gain(c) == 7 && Len(c) == 2000;
    IsFirstFull(c, 70);
  }

  // ----- The transfers in the buffer -----

  /** The buffer never holds more transfers than it hands over. */
  predicate Filled(c: Setup, s: State) {
    && |s.b.pending| == Start(s.held, Gain(c))
    && (Gain(c) > 0 ==> s.held <= TransfersHeld(c))
  }

  lemma GainOfTransfer(c: Setup, input: seq<Sample>)
    requires ValidSetup(c) && ValidEvent(c, Deliver(input))
    ensures Frames(c, input) == FramesPerTransfer(c)
    ensures |Project(c.mask, c.tracks, input, FramesPerTransfer(c), 0)| == Gain(c)
  {
    TransferFits(c, input);
  }

  /** Whether a delivery hands over depends on how many transfers are pending; then it is nothing, or
      as many as the buffer can hold. */
  lemma HandOverWhenFull(c: Setup, s: State, input: seq<Sample>)
    requires ValidSetup(c) && ValidState(c, s) && ValidEvent(c, Deliver(input)) && Filled(c, s)
    ensures HandsOver(c, s.b, input) <==> FullAfter(c, s.held)
    ensures HandsOver(c, s.b, input) && Gain(c) > 0 ==> s.held == 0 || s.held == TransfersHeld(c)
    ensures !HandsOver(c, s.b, input) && Gain(c) > 0 ==> s.held < TransfersHeld(c)
  {
    GainOfTransfer(c, input);
  }

  lemma DeliveryFills(c: Setup, s: State, input: seq<Sample>)
    requires ValidSetup(c) && ValidState(c, s) && ValidEvent(c, Deliver(input)) && Filled(c, s)
    ensures Filled(c, Delivered(c, s, input))
  {
    GainOfTransfer(c, input);
    HandOverWhenFull(c, s, input);
    assert Start(1, Gain(c)) == Start(0, Gain(c)) + Gain(c) == Gain(c);
    hide Project, HandsOver, Gain, TransfersHeld;
  }

  // ----- Conservation -----

  lemma FramesAreWhole(n: nat, outputs: nat)
    requires outputs > 0 && n % outputs == 0
    ensures n / outputs * outputs == n && WholeFrames(n, outputs) == n
  {
  }

  /** The samples that are handed over when they are whole frames. */
  lemma WholeHandOver(c: Setup, b: Buffer)
    requires ValidSetup(c) && ValidBuffer(c, b) && |b.pending| % Outputs(c.mask, c.tracks) == 0
    ensures var h := HandOver(c, b);
            && Chunk(h) == b.pending && h.pending == []
            && h.frames * Outputs(c.mask, c.tracks) == b.frames * Outputs(c.mask, c.tracks) + |b.pending|
  {
    var outputs := Outputs(c.mask, c.tracks);
    FramesAreWhole(|b.pending|, outputs);
    var n := |b.pending| / outputs;
    assert (b.frames + n) * outputs == b.frames * outputs + n * outputs;
  }

  lemma HeardAndProjected(c: Setup, s: State, input: seq<Sample>)
    requires ValidSetup(c) && ValidEvent(c, Deliver(input)) && Conserved(c, s)
    ensures var n, f := s.transfers * FramesPerTransfer(c), FramesPerTransfer(c);
            && (s.transfers + 1) * f == n + f
            && |s.heard + input| == Start(n + f, c.tracks)
            && Project(c.mask, c.tracks, s.heard + input, n + f, 0)
               == Project(c.mask, c.tracks, s.heard, n, 0) + Project(c.mask, c.tracks, input, f, 0)
  {
    var n, f := s.transfers * FramesPerTransfer(c), FramesPerTransfer(c);
    assert (s.transfers + 1) * f == n + f;
    ProjectSum(c.mask, c.tracks, s.heard, input, n, f);
    hide Project, FramesPerTransfer;
  }

  lemma DeliveryConserves(c: Setup, s: State, input: seq<Sample>)
    requires ValidSetup(c) && ValidState(c, s) && ValidEvent(c, Deliver(input)) && Filled(c, s) && Conserved(c, s)
    requires HandsOverFrames(c)
    ensures Conserved(c, Delivered(c, s, input))
  {
    GainOfTransfer(c, input);
    HeardAndProjected(c, s, input);
    HandOverWhenFull(c, s, input);
    var gain, all := Project(c.mask, c.tracks, input, FramesPerTransfer(c), 0), Flat(s.chunks) + s.b.pending;
    if HandsOver(c, s.b, input) {
      PendingIsWhole(c, s);
      WholeHandOver(c, s.b);
      hide HandOver, Project, HandsOver, FramesPerTransfer, Outputs;
      var chunks := s.chunks + [s.b.pending];
      assert chunks[..|s.chunks|] == s.chunks;
      assert Flat(chunks) == all;
      assert Delivered(c, s, input).chunks == chunks;
    } else {
      hide Project, HandsOver, FramesPerTransfer, Outputs, Flat;
      assert Flat(s.chunks) + (s.b.pending + gain) == all + gain;
    }
  }

  lemma PendingIsWhole(c: Setup, s: State)
    requires ValidSetup(c) && Filled(c, s) && HandsOverFrames(c)
    requires Gain(c) > 0 ==> s.held == 0 || s.held == TransfersHeld(c)
    ensures |s.b.pending| % Outputs(c.mask, c.tracks) == 0
  {
    hide Gain, TransfersHeld, Outputs, Start;
    if Gain(c) == 0 { NothingHeld(s.held); }
    NoneHeld(Gain(c));
  }

  lemma {:induction false} NothingHeld(n: nat)
    ensures Start(n, 0) == 0
  {
    if n > 0 { NothingHeld(n - 1); }
  }

  lemma NoneHeld(gain: nat)
    ensures Start(0, gain) == 0
  {
  }

  lemma {:induction false} RunFills(c: Setup, s: State, events: seq<Event>)
    requires ValidSetup(c) && Initial(c, s) && ValidEvents(c, events)
    ensures Filled(c, Run(c, s, events))
  {
    if events != [] {
      RunFills(c, s, events[..|events| - 1]);
      var before, ev := Run(c, s, events[..|events| - 1]), events[|events| - 1];
      if ev.Deliver? && !before.ended { DeliveryFills(c, before, ev.input); }
      hide Gain, TransfersHeld, Delivered;
    }
  }

  lemma InitialConserves(c: Setup, s: State)
    requires ValidSetup(c) && Initial(c, s)
    ensures Conserved(c, s)
  {
    assert Flat([[]]) == Flat([]) + [];
  }

  lemma {:induction false} RunConserves(c: Setup, s: State, events: seq<Event>)
    requires ValidSetup(c) && Initial(c, s) && ValidEvents(c, events) && HandsOverFrames(c)
    ensures Conserved(c, Run(c, s, events))
  {
    if events == [] {
      InitialConserves(c, s);
    } else {
      RunConserves(c, s, events[..|events| - 1]);
      RunFills(c, s, events[..|events| - 1]);
      var before, ev := Run(c, s, events[..|events| - 1]), events[|events| - 1];
      if ev.Deliver? && !before.ended { DeliveryConserves(c, before, ev.input); }
      hide Project, Flat, Outputs, FramesPerTransfer, Filled, Delivered, HandsOverFrames;
    }
  }

  // ----- A run that loses samples -----

  function Loud(c: Setup, v: Sample): seq<Sample> {
    seq(Start(FramesPerTransfer(c), c.tracks), _ => v)
  }

  predicate All(xs: seq<Sample>, v: Sample) {
    forall k :: 0 <= k < |xs| ==> xs[k] == v
  }

  lemma {:induction false} ProjectAll(mask: Mask, tracks: nat, input: seq<Sample>, n: nat, j: nat, v: Sample)
    requires j <= tracks && Start(n, tracks) + j <= |input| && All(input, v)
    ensures All(Project(mask, tracks, input, n, j), v)
    decreases n, j
  {
    if j > 0 { ProjectAll(mask, tracks, input, n, j - 1, v); }
    else if n > 0 { ProjectAll(mask, tracks, input, n - 1, tracks, v); }
  }

  function Deliveries(c: Setup, v: Sample, n: nat): (events: seq<Event>)
    ensures ValidEvents(c, events) && |events| == n
  {
    seq(n, _ => Deliver(Loud(c, v)))
  }

  /** After n deliveries, before the first hand-over that has something to hand over. */
  predicate Loading(c: Setup, s: State, t: State, v: Sample, n: nat) {
    && !t.ended && t.held == n && t.b.disk == s.b.disk && Flat(t.chunks) == []
    && All(t.b.pending, v) && All(t.heard, v) && Filled(c, t)
    && |t.heard| == Start(t.transfers * FramesPerTransfer(c), c.tracks)
  }

  lemma NoChunk(chunks: seq<seq<Sample>>)
    requires Flat(chunks) == []
    ensures Flat(chunks + [[]]) == []
  {
    assert (chunks + [[]])[..|chunks|] == chunks;
  }

  lemma MoreHeard(c: Setup, t: State, input: seq<Sample>)
    requires |t.heard| == Start(t.transfers * FramesPerTransfer(c), c.tracks) && ValidEvent(c, Deliver(input))
    ensures |t.heard + input| == Start((t.transfers + 1) * FramesPerTransfer(c), c.tracks)
  {
    StartSum(t.transfers * FramesPerTransfer(c), FramesPerTransfer(c), c.tracks);
    assert (t.transfers + 1) * FramesPerTransfer(c) == t.transfers * FramesPerTransfer(c) + FramesPerTransfer(c);
  }

  lemma EmptyHandOver(c: Setup, b: Buffer)
    requires ValidSetup(c) && ValidBuffer(c, b) && b.pending == []
    ensures var h := HandOver(c, b); h.pending == [] && h.disk == b.disk && h.diskSamples == 0
  {
  }

  /** One more delivery, into an empty buffer or one that has room. */
  lemma LoadOne(c: Setup, s: State, t: State, v: Sample, n: nat)
    requires ValidSetup(c) && ValidState(c, t) && Gain(c) > 0 && Loading(c, s, t, v, n)
    requires n == 0 || n < TransfersHeld(c)
    ensures Loading(c, s, Delivered(c, t, Loud(c, v)), v, n + 1)
  {
    var input := Loud(c, v);
    GainOfTransfer(c, input);
    HandOverWhenFull(c, t, input);
    DeliveryFills(c, t, input);
    ProjectAll(c.mask, c.tracks, input, FramesPerTransfer(c), 0, v);
    MoreHeard(c, t, input);
    if n == 0 {
      EmptyHandOver(c, t.b);
      NoChunk(t.chunks);
    }
    hide Gain, TransfersHeld, Project, HandsOver, HandOver, Flat, FramesPerTransfer;
    assert All(t.heard + input, v);
  }

  lemma {:induction false} Load(c: Setup, s: State, v: Sample, n: nat)
    requires ValidSetup(c) && Initial(c, s) && Gain(c) > 0 && n <= TransfersHeld(c)
    ensures Loading(c, s, Run(c, s, Deliveries(c, v, n)), v, n)
  {
    if n == 0 {
      assert Flat([[]]) == Flat([]) + [];
      assert s.b.pending == [];
    } else {
      Load(c, s, v, n - 1);
      assert Deliveries(c, v, n)[..n - 1] == Deliveries(c, v, n - 1);
      LoadOne(c, s, Run(c, s, Deliveries(c, v, n - 1)), v, n - 1);
      hide Loading, Gain, TransfersHeld, Delivered, Loud;
    }
  }

  /** What a torn hand-over puts last is what the disk buffer held there before. */
  lemma TornChunk(c: Setup, b: Buffer)
    requires ValidSetup(c) && ValidBuffer(c, b) && |b.pending| % Outputs(c.mask, c.tracks) != 0
    ensures var h := HandOver(c, b);
            |Chunk(h)| == |b.pending| > 0 && Chunk(h)[|b.pending| - 1] == b.disk[|b.pending| - 1]
  {
  }

  /** The input is not all there. */
  predicate Loses(c: Setup, s: State) {
    && |s.heard| == Start(s.transfers * FramesPerTransfer(c), c.tracks)
    && Flat(s.chunks) + s.b.pending != Project(c.mask, c.tracks, s.heard, s.transfers * FramesPerTransfer(c), 0)
  }

  /** One delivery more than the buffer holds. */
  lemma TornRun(c: Setup, s: State) returns (events: seq<Event>)
    requires ValidSetup(c) && Initial(c, s) && !HandsOverFrames(c)
    ensures ValidEvents(c, events) && Loses(c, Run(c, s, events))
  {
    var k := TransfersHeld(c);
    var n := Start(k, Gain(c));
    Load(c, s, 0.0, k);
    assert n <= |s.b.disk| && n > 0;
    var v := s.b.disk[n - 1] + 1.0;
    Load(c, s, v, k);
    events := Deliveries(c, v, k + 1);
    assert events[..k] == Deliveries(c, v, k);
    var t := Run(c, s, Deliveries(c, v, k));
    TornDelivery(c, s, t, v, k);
    hide Gain, TransfersHeld, Delivered, Loses, Loud, Loading;
    assert Run(c, s, events) == Delivered(c, t, Loud(c, v));
  }

  lemma TornDelivery(c: Setup, s: State, t: State, v: Sample, k: nat)
    requires ValidSetup(c) && ValidState(c, t) && !HandsOverFrames(c) && k == TransfersHeld(c)
    requires Loading(c, s, t, v, k) && 0 < |t.b.pending| <= |s.b.disk| && s.b.disk[|t.b.pending| - 1] != v
    ensures Loses(c, Delivered(c, t, Loud(c, v)))
  {
    var input, last := Loud(c, v), |t.b.pending| - 1;
    var u := Delivered(c, t, input);
    HandOverWhenFull(c, t, input);
    TornChunk(c, t.b);
    var chunk := Chunk(HandOver(c, t.b));
    assert u.chunks[..|t.chunks|] == t.chunks;
    assert Flat(u.chunks) == Flat(t.chunks) + chunk;
    assert All(u.heard, v);
    MoreHeard(c, t, input);
    ProjectAll(c.mask, c.tracks, u.heard, u.transfers * FramesPerTransfer(c), 0, v);
    hide Project, HandOver, HandsOver, Flat, Gain, FramesPerTransfer, Outputs;
    assert (Flat(u.chunks) + u.b.pending)[last] == s.b.disk[last];
  }

  lemma LossIsNotConserved(c: Setup, s: State)
    requires Loses(c, s)
    ensures !Conserved(c, s)
  {
  }

  /** In every run the chunks handed over, followed by the pending buffer, are the selected tracks of all
      the input, and the header's frames are the ones handed over, exactly when the number of transfers
      that the buffer hands over at a time is whole frames of the file. */
  lemma NothingIsLostBetweenBuffers(c: Setup, s: State)
    requires ValidSetup(c) && Initial(c, s)
    ensures (forall events :: ValidEvents(c, events) ==> Conserved(c, Run(c, s, events))) <==> HandsOverFrames(c)
  {
    hide Conserved, Loses, Run, ValidEvent, HandsOverFrames;
    if HandsOverFrames(c) {
      forall events | ValidEvents(c, events)
        ensures Conserved(c, Run(c, s, events))
      {
        RunConserves(c, s, events);
      }
    } else {
      var events := TornRun(c, s);
      LossIsNotConserved(c, Run(c, s, events));
    }
  }

  // ----- What reaches the file -----

  predicate Increasing(xs: seq<nat>) {
    forall k, l :: 0 <= k < l < |xs| ==> xs[k] < xs[l]
  }

  /** The latest chunk has not been written yet. */
  predicate Unwritten(s: State) {
    s.dumped == [] || s.dumped[|s.dumped| - 1] < |s.chunks| - 1
  }

  /** The file has chunks in order, each at most once; and the status tells whether the latest one waits. */
  predicate Ordered(s: State) {
    && |s.chunks| > 0 && s.b.diskSamples <= |s.b.disk| && Chunk(s.b) == s.chunks[|s.chunks| - 1]
    && |s.file| == |s.dumped| && Increasing(s.dumped)
    && (forall k :: 0 <= k < |s.dumped| ==> s.dumped[k] < |s.chunks| && s.file[k] == s.chunks[s.dumped[k]])
    && (s.dumper == Dumping || s.b.status == Ready ==> Unwritten(s))
    && (s.b.status == Empty ==> !Unwritten(s))
    && (s.b.status == End ==> s.ended)
    && (s.b.status == Ready || s.dumper == Dumping || !Unwritten(s) || s.b.status == End)
  }

  /** A hand-over that found the buffer still waiting to be written. */
  predicate Late(c: Setup, s: State, ev: Event)
    requires c.tracks > 0
  {
    ev.Deliver? && !s.ended && HandsOver(c, s.b, ev.input) && s.b.status != Empty
  }

  function LateCount(c: Setup, s: State, events: seq<Event>): nat
    requires ValidSetup(c) && ValidState(c, s) && ValidEvents(c, events)
  {
    if events == [] then 0 else
    var before := events[..|events| - 1];
    LateCount(c, s, before) + if Late(c, Run(c, s, before), events[|events| - 1]) then 1 else 0
  }

  lemma DeliveryKeepsOrder(c: Setup, s: State, input: seq<Sample>)
    requires ValidSetup(c) && ValidState(c, s) && ValidEvent(c, Deliver(input)) && Ordered(s) && !s.ended
    ensures Ordered(Delivered(c, s, input))
  {
    hide HandsOver, Project, HandOver;
    TransferFits(c, input);
    WrittenIsValid(c, s.b, input);
    WrittenDisk(c, s.b, input);
  }

  lemma WrittenDisk(c: Setup, b: Buffer, input: seq<Sample>)
    requires ValidSetup(c) && ValidBuffer(c, b) && Fits(c, input)
    ensures var w := Written(c, b, input);
            if HandsOver(c, b, input) then w.status == Ready
            else w.disk == b.disk && w.diskSamples == b.diskSamples && w.status == b.status
  {
    hide HandsOver, Project;
  }

  lemma DumperKeepsOrder(c: Setup, s: State)
    requires ValidState(c, s) && Ordered(s)
    ensures Ordered(DumperStep(c, s))
  {
  }

  lemma StopKeepsOrder(c: Setup, s: State)
    requires ValidState(c, s) && Ordered(s)
    ensures Ordered(s.(ended := true, b := s.b.(status := End)))
  {
  }

  lemma StepKeepsOrder(c: Setup, s: State, ev: Event)
    requires ValidSetup(c) && ValidState(c, s) && ValidEvent(c, ev) && Ordered(s)
    ensures Ordered(Next(c, s, ev))
  {
    hide Ordered, Delivered, DumperStep;
    match ev {
      case Deliver(input) => if !s.ended { DeliveryKeepsOrder(c, s, input); }
      case DumperMoves => DumperKeepsOrder(c, s);
      case Stop => StopKeepsOrder(c, s);
    }
  }

  lemma InitialIsOrdered(c: Setup, s: State)
    requires Initial(c, s)
    ensures Ordered(s)
  {
  }

  lemma {:induction false} RunKeepsOrder(c: Setup, s: State, events: seq<Event>)
    requires ValidSetup(c) && Initial(c, s) && ValidEvents(c, events)
    ensures Ordered(Run(c, s, events))
  {
    hide Ordered, Next;
    if events == [] {
      InitialIsOrdered(c, s);
    } else {
      RunKeepsOrder(c, s, events[..|events| - 1]);
      StepKeepsOrder(c, Run(c, s, events[..|events| - 1]), events[|events| - 1]);
    }
  }

  lemma StepCounts(c: Setup, s: State, ev: Event)
    requires ValidSetup(c) && ValidState(c, s) && ValidEvent(c, ev) && Ordered(s)
    ensures var n := Next(c, s, ev);
            |n.chunks| - |n.file| - (if Unwritten(n) then 1 else 0)
            == |s.chunks| - |s.file| - (if Unwritten(s) then 1 else 0) + if Late(c, s, ev) then 1 else 0
  {
    hide HandsOver, Written, Chunk;
    match ev {
      case Deliver(input) =>
        assert !s.ended ==> (Unwritten(s) <==> s.b.status == Ready);
        assert !s.ended ==> Unwritten(Delivered(c, s, input)) == (HandsOver(c, s.b, input) || Unwritten(s));
      case DumperMoves =>
        assert s.dumper == Dumping ==> !Unwritten(Next(c, s, ev));
      case Stop =>
    }
  }

  /** Exactly the chunks that were overtaken by the next hand-over are missing. */
  lemma {:induction false} LostChunks(c: Setup, s: State, events: seq<Event>)
    requires ValidSetup(c) && Initial(c, s) && ValidEvents(c, events)
    ensures var n := Run(c, s, events);
            |n.chunks| == |n.file| + LateCount(c, s, events) + if Unwritten(n) then 1 else 0
  {
    if events != [] {
      LostChunks(c, s, events[..|events| - 1]);
      RunKeepsOrder(c, s, events[..|events| - 1]);
      StepCounts(c, Run(c, s, events[..|events| - 1]), events[|events| - 1]);
      hide Next, Late, Unwritten, Ordered;
    }
  }

  lemma {:induction false} IncreasingFloor(xs: seq<nat>, k: nat)
    requires Increasing(xs) && k < |xs|
    ensures xs[k] >= k && xs[k] <= xs[|xs| - 1] - (|xs| - 1 - k)
    decreases |xs|
  {
    if k < |xs| - 1 {
      var ys := xs[..|xs| - 1];
      IncreasingFloor(ys, k);
    } else if k > 0 {
      IncreasingFloor(xs[..|xs| - 1], k - 1);
    }
  }

  lemma NothingSkipped(s: State)
    requires Ordered(s) && |s.chunks| == |s.file| + if Unwritten(s) then 1 else 0
    ensures s.file == s.chunks[..|s.file|]
  {
    forall k | 0 <= k < |s.file|
      ensures s.file[k] == s.chunks[k]
    {
      IncreasingFloor(s.dumped, k);
      assert s.dumped[k] == k;
    }
  }

  /** The file is the chunks that were handed over, one after another, lacking the last one at most,
      exactly when every hand-over found the buffer empty, that is, when the dumper ran in between. */
  lemma FileIsComplete(c: Setup, s: State, events: seq<Event>)
    requires ValidSetup(c) && Initial(c, s) && ValidEvents(c, events)
    ensures var n := Run(c, s, events);
            LateCount(c, s, events) == 0
            <==> n.file <= n.chunks && |n.chunks| == |n.file| + if Unwritten(n) then 1 else 0
  {
    LostChunks(c, s, events);
    RunKeepsOrder(c, s, events);
    hide Run, LateCount, Ordered, Unwritten;
    var n := Run(c, s, events);
    if LateCount(c, s, events) == 0 { NothingSkipped(n); }
  }

  /** The chunks in the file are chunks that were handed over, in their order, none of them twice. */
  lemma FileKeepsOrder(c: Setup, s: State, events: seq<Event>)
    requires ValidSetup(c) && Initial(c, s) && ValidEvents(c, events)
    ensures var n := Run(c, s, events);
            && |n.dumped| == |n.file| && Increasing(n.dumped)
            && forall k :: 0 <= k < |n.file| ==> n.dumped[k] < |n.chunks| && n.file[k] == n.chunks[n.dumped[k]]
  {
    RunKeepsOrder(c, s, events);
    hide Run;
  }

  // ----- The end -----

  /** Once stopped, a dumper that was not writing ends with its next step, and one that was writing
      overwrites the request and polls for ever. */
  lemma {:induction false} StoppedRun(c: Setup, s: State, events: seq<Event>)
    requires ValidSetup(c) && ValidState(c, s) && ValidEvents(c, events) && s.ended && s.b.status == End
             && s.dumper != Finished
    ensures var n := Run(c, s, events);
            n.ended && if s.dumper == Polling then
                         n.b.status == End && (n.dumper == Finished <==> DumperMoves in events)
                         && (n.dumper == Finished || n == s)
                       else
                         (n == s || (n.b.status == Empty && n.dumper == Polling))
  {
    if events != [] {
      var before, ev := events[..|events| - 1], events[|events| - 1];
      StoppedRun(c, s, before);
      assert events == before + [ev];
      hide Chunk, Delivered;
    }
  }

  /** pthread_join returns after a stop exactly when the dumper was not between seeing the buffer ready
      and writing it. */
  lemma JoinReturns(c: Setup, s: State)
    requires ValidSetup(c) && ValidState(c, s) && !s.ended && s.dumper != Finished
    ensures (exists events :: ValidEvents(c, events) && Run(c, Next(c, s, Stop), events).dumper == Finished)
            <==> s.dumper == Polling
  {
    var t := Next(c, s, Stop);
    if s.dumper == Polling {
      StoppedRun(c, t, [DumperMoves]);
      assert ValidEvents(c, [DumperMoves]) && Run(c, t, [DumperMoves]).dumper == Finished;
    } else {
      forall events | ValidEvents(c, events)
        ensures Run(c, t, events).dumper != Finished
      {
        StoppedRun(c, t, events);
      }
    }
  }

  /** And that does happen: stop as soon as the dumper has looked for the first time. */
  lemma StopCanBeLost(c: Setup, s: State, events: seq<Event>)
    requires ValidSetup(c) && Initial(c, s) && ValidEvents(c, events)
    ensures Run(c, Next(c, Next(c, s, DumperMoves), Stop), events).dumper != Finished
  {
    StoppedRun(c, Next(c, Next(c, s, DumperMoves), Stop), events);
  }
}
