/** What the ideal loop does on exact and on jittery clocks, carried over to the code on its 28-bit clock. */
module DllWrappedClock {
  import opened Words
  import opened Reals
  import opened Dll
  import opened DllLoop
  import opened DllRefinement
  import Ideal

  // ----- How late a transfer can be -----

  /** A device: its true period and how far its transfers stray from it, the gain of the loop, the share of the
      energy that jitter may take, and how far the span of the line can be off the period. */
  datatype Clock = Clock(period: real, noise: real, w: real, share: real, spread: real)

  /** The energy that this device can bring about keeps every transfer within `limit` of its prediction. */
  predicate InReach(o: Overbridge, k: Clock, limit: real) {
    && o.boot && Gains(o, k.w) && 0.0 < k.w < 1.6 && Absorbs(k.w, k.share) && limit >= 0.0
    && Reserve(o, k.w, k.period, k.noise, k.share) <= 0.36 * Square(Product(k.w, limit))
  }

  lemma ProductCancels(w: real, e: real, limit: real)
    requires w > 0.0 && -Product(w, limit) <= Product(w, e) <= Product(w, limit)
    ensures -limit <= e <= limit
  {
    if e > limit { PositiveProduct(w, e - limit, Product(w, e) - Product(w, limit)); }
    if e < -limit { PositiveProduct(w, -limit - e, -Product(w, limit) - Product(w, e)); }
  }

  /** The energy bounds the lateness of a transfer. */
  lemma LatenessBound(o: Overbridge, w: real, period: real, time: real, limit: real)
    requires Gains(o, w) && w > 0.0 && limit >= 0.0
    requires LineEnergy(o, period, time) <= 0.36 * Square(Product(w, limit))
    ensures -limit <= time - o.i1.time <= limit
  {
    hide Energy, Square, Product;
    var e := time - o.i1.time;
    EnergyBounds(w, o.w1, o.w2, e, period - o.dt);
    ProductSign(w, limit);
    SquareOrder(Product(w, e), Product(w, limit));
    ProductCancels(w, e, limit);
  }

  lemma LatenessInReach(o: Overbridge, k: Clock, frames: nat, times: seq<real>, limit: real)
    requires InReach(o, k, limit) && |times| > 0 && Jittery(times, k.period, k.noise)
    ensures var n := |times| - 1;
            -limit <= Ideal.Lateness(Ideal.ArriveAll(o, frames, times[..n]), frames, times[n]) <= limit
  {
    hide Ideal.ArriveAll, Ideal.Lateness, Found, LineEnergy, Reserve, Square, Gains, Absorbs, Jittery, Product;
    EnergyStaysInReserve(o, k.w, frames, k.period, times, k.noise, k.share);
    FoundThenArrived(o, k.w, frames, times);
    LatenessBound(Found(o, frames, times), k.w, k.period, times[|times| - 1], limit);
  }

  /** After a transfer the line starts where that transfer was predicted. */
  lemma StartsAtPrediction(o: Overbridge, w: real, frames: nat, times: seq<real>)
    requires o.boot && Gains(o, w) && |times| > 0
    ensures var n := |times| - 1;
            times[n] - Ideal.ArriveAll(o, frames, times).i0.time
            == Ideal.Lateness(Ideal.ArriveAll(o, frames, times[..n]), frames, times[n])
  {
    FoundThenArrived(o, w, frames, times);
    hide Ideal.ArriveAll, Found, Gains, Product;
  }

  lemma ArrivalIsTame(o: Overbridge, k: Clock, limit: real, i: Loop, frames: uint32, times: seq<real>, last: nat,
                      t: nat)
    requires InReach(o, k, limit) && limit <= 68.0 && i.o == Ideal.ArriveAll(o, frames, times)
    requires Jittery(times + [Seconds(t)], k.period, k.noise)
    requires times != [] ==> last <= t < last + CLOCK_SPAN
    ensures Tame(i, frames, last, Arrival(t))
  {
    var all := times + [Seconds(t)];
    assert all[..|all| - 1] == times;
    LatenessInReach(o, k, frames, all, limit);
    hide Seconds, Ideal.Lateness, Ideal.Arrive, Reserve, Jittery;
  }

  // ----- Transfers of an exact clock -----

  function Tick(time: nat, period: nat, k: nat): nat {
    time + k * period
  }

  /** Transfers that arrive at time, time + period, ... in microseconds. */
  function Transfers(time: nat, period: nat, n: nat): seq<Event> {
    seq(n, (k: nat) => Arrival(Tick(time, period, k)))
  }

  lemma TransfersSplit(time: nat, period: nat, n: nat)
    requires n > 0
    ensures Transfers(time, period, n) == Transfers(time, period, n - 1) + [Arrival(Tick(time, period, n - 1))]
  {
    hide Tick;
  }

  lemma NextTick(time: nat, period: nat, k: nat)
    ensures Tick(time, period, k + 1) == Tick(time, period, k) + period
  {
  }

  lemma SecondsOfTick(time: nat, period: nat, k: nat)
    ensures Seconds(Tick(time, period, k)) == TickAt(Seconds(time), Seconds(period), k)
  {
    assert (k * period) as real == k as real * period as real;
  }

  lemma RunSplit(s: Loop, frames: uint32, events: seq<Event>, e: Event, start: nat)
    ensures IdealRun(s, frames, events + [e]) == IdealStep(IdealRun(s, frames, events), frames, e)
    ensures TameRun(s, frames, start, events + [e])
            == (TameRun(s, frames, start, events)
                && Tame(IdealRun(s, frames, events), frames, LastArrival(events, start), e))
    ensures e.Arrival? ==> LastArrival(events + [e], start) == e.t
  {
    hide IdealStep, Tame;
    assert (events + [e])[..|events|] == events;
  }

  function TicksOf(time: nat, period: nat, n: nat): seq<real> {
    Ticks(Seconds(time), Seconds(period), n)
  }

  lemma TicksOfSplit(time: nat, period: nat, n: nat)
    requires n > 0
    ensures TicksOf(time, period, n) == TicksOf(time, period, n - 1) + [Seconds(Tick(time, period, n - 1))]
  {
    TicksSplit(Seconds(time), Seconds(period), n);
    SecondsOfTick(time, period, n - 1);
    hide TickAt, Tick, Seconds;
  }

  lemma ArriveOnce(o: Overbridge, frames: nat, times: seq<real>, time: real)
    ensures Ideal.ArriveAll(o, frames, times + [time]) == Ideal.Arrive(Ideal.ArriveAll(o, frames, times), frames, time)
  {
    hide Ideal.Arrive;
    assert (times + [time])[..|times|] == times;
  }

  /** The ideal run over the transfers is the run of module DllLoop over the ticks. */
  lemma {:induction false} IdealRunIsTicks(s: Loop, frames: uint32, time: nat, period: nat, n: nat)
    ensures IdealRun(s, frames, Transfers(time, period, n))
            == s.(o := Ideal.ArriveAll(s.o, frames, TicksOf(time, period, n)))
  {
    hide Ideal.Arrive, Seconds, Tick, TickAt;
    if n > 0 {
      IdealRunIsTicks(s, frames, time, period, n - 1);
      TransfersSplit(time, period, n);
      RunSplit(s, frames, Transfers(time, period, n - 1), Arrival(Tick(time, period, n - 1)), 0);
      TicksOfSplit(time, period, n);
      ArriveOnce(s.o, frames, TicksOf(time, period, n - 1), Seconds(Tick(time, period, n - 1)));
      hide Transfers, IdealRun, TicksOf, Ideal.ArriveAll;
    }
  }

  lemma TicksAreJittery(time: nat, period: nat, n: nat)
    ensures Jittery(TicksOf(time, period, n), Seconds(period), 0.0)
  {
    hide Seconds;
    var times := TicksOf(time, period, n);
    forall k | 0 <= k < |times| - 1
      ensures -0.0 <= times[k + 1] - times[k] - Seconds(period) <= 0.0
    {
      TickFacts(Seconds(time), Seconds(period), k);
      hide TickAt;
    }
  }

  /** An exact clock needs no share for jitter: any small enough one will do. */
  lemma ExactShare(w: real) returns (share: real)
    requires 0.0 < w < 1.6
    ensures Absorbs(w, share) && JitterEnergy(w, 0.0, share) == 0.0
  {
    DecayRange(w);
    var q := Decay(w);
    hide Decay;
    share := (1.0 - q) / (2.0 * q);
    assert share * q == (1.0 - q) / 2.0;
    assert JitterDecay(w, share) == q + (1.0 - q) / 2.0;
    PositiveQuotient(1.0 - q, 2.0 * q);
    NoJitter(w, share);
  }

  lemma NoJitter(w: real, share: real)
    requires Absorbs(w, share)
    ensures JitterEnergy(w, 0.0, share) == 0.0
  {
    hide JitterDecay, PushCost;
    assert Product(PushCost(w, share), Square(0.0)) == 0.0;
    NoQuotient(1.0 - JitterDecay(w, share));
  }

  lemma NoQuotient(d: real)
    requires d > 0.0
    ensures 0.0 / d == 0.0
  {
  }

  lemma ExactClock(o: Overbridge, w: real, period: real, limit: real) returns (k: Clock)
    requires o.boot && Gains(o, w) && 0.0 < w < 1.6 && limit >= 0.0
    requires BootEnergy(o, period) <= 0.36 * Square(Product(w, limit))
    ensures InReach(o, k, limit) && k.period == period && k.noise == 0.0
  {
    hide Gains, BootEnergy, JitterEnergy, Square, Product, Absorbs;
    var share := ExactShare(w);
    k := Clock(period, 0.0, w, share, 0.0);
  }

  /** While the boot energy keeps every transfer within 68 s of its prediction, the run is tame. */
  lemma {:induction false} TransfersAreTame(s: Loop, w: real, frames: uint32, time: nat, period: nat, n: nat,
                                            limit: real)
    requires s.o.boot && Gains(s.o, w) && 0.0 < w < 1.6 && period < CLOCK_SPAN && 0.0 <= limit <= 68.0
    requires BootEnergy(s.o, Seconds(period)) <= 0.36 * Square(Product(w, limit))
    ensures TameRun(s, frames, time, Transfers(time, period, n))
    ensures n > 0 ==> LastArrival(Transfers(time, period, n), time) == Tick(time, period, n - 1)
  {
    hide Gains, BootEnergy, Square, Product, Seconds, TicksOf, Tick, InReach, Ideal.ArriveAll, Tame;
    if n > 0 {
      var before, t := Transfers(time, period, n - 1), Tick(time, period, n - 1);
      TransfersAreTame(s, w, frames, time, period, n - 1, limit);
      TransfersSplit(time, period, n);
      RunSplit(s, frames, before, Arrival(t), time);
      IdealRunIsTicks(s, frames, time, period, n - 1);
      TicksOfSplit(time, period, n);
      TicksAreJittery(time, period, n);
      if n > 1 { NextTick(time, period, n - 2); } else { NoTicks(time, period); }
      var k := ExactClock(s.o, w, Seconds(period), limit);
      hide Transfers, IdealRun, TameRun, LastArrival, Jittery;
      ArrivalIsTame(s.o, k, limit, IdealRun(s, frames, before), frames, TicksOf(time, period, n - 1),
                    LastArrival(before, time), t);
    }
  }

  lemma NoTicks(time: nat, period: nat)
    ensures TicksOf(time, period, 0) == []
  {
  }

  /** The code locks on a clock it sees through 28 bits: for transfers at an exact period, over any
      number of wraps, the filtered period converges geometrically to the true one. */
  lemma CodeConverges(s: Loop, w: real, frames: uint32, time: nat, period: nat, n: nat, limit: real)
    requires s.o.boot && Gains(s.o, w) && 0.0 < w < 1.6 && period < CLOCK_SPAN && 0.0 <= limit <= 68.0
    requires BootEnergy(s.o, Seconds(period)) <= 0.36 * Square(Product(w, limit))
    requires frames < 0x8000_0000 && 0 <= s.h.frames < TWO32 && n > 0
    ensures var line := Run(s, frames, Transfers(time, period, n)).o;
            0.36 * Square(Seconds(period) - line.dt) <= Left(Decay(w), n, BootEnergy(s.o, Seconds(period)))
  {
    hide Gains, BootEnergy, Decay, Left, Square, Product, Ideal.ArriveAll, Run, IdealRun, TameRun, Seconds, Transfers,
         Ticks;
    var i := IdealOf(s);
    TransfersAreTame(i, w, frames, time, period, n, limit);
    ErrorsAndRatiosAreIdeal(s, frames, time, Transfers(time, period, n));
    IdealRunIsTicks(i, frames, time, period, n);
    PeriodConverges(s.o, w, frames, Seconds(time), Seconds(period), n);
  }

  // ----- Runs of everything that happens to the loop -----

  predicate Restarts(e: Event) {
    e.Start? || e.Reset?
  }

  /** How often the line has been told to boot. */
  function Stretch(events: seq<Event>): nat {
    if events == [] then 0
    else Stretch(events[..|events| - 1]) + if Restarts(events[|events| - 1]) then 1 else 0
  }

  /** The transfers since then. */
  function Times(events: seq<Event>): seq<real> {
    if events == [] then []
    else
      var before, e := events[..|events| - 1], events[|events| - 1];
      if Restarts(e) then [] else if e.Arrival? then Times(before) + [Seconds(e.t)] else Times(before)
  }

  /** The ideal line as it was then. */
  function Origin(s: Loop, frames: uint32, events: seq<Event>): Overbridge {
    if events == [] then s.o
    else if Restarts(events[|events| - 1]) then IdealRun(s, frames, events).o
    else Origin(s, frames, events[..|events| - 1])
  }

  /** Half of the 68 s goes to the lateness of a transfer, the other half to the cycles after it. */
  const HALF: real := 34.0

  /** A line that boots on this device stays readable through 28 bits. */
  predicate Calm(o: Overbridge, k: Clock) {
    && InReach(o, k, HALF) && 0.0 <= k.noise <= k.period
    && 0.0 <= k.spread < k.period && k.period + k.spread <= 68.0
    && Reserve(o, k.w, k.period, k.noise, k.share) <= 0.36 * Square(k.spread)
  }

  /** What a run still has to promise. The line is calm when a transfer boots it; the next transfers come at the
      device's period, but for its jitter. A cycle comes after the first transfer and began within 34 s of the
      last, before or after it, and the reader keeps the backlog, and what booting corrects, within 31 bits. */
  predicate Promised(s: Loop, k: Clock, times: seq<real>, last: nat, e: Event) {
    match e
    case Arrival(t) =>
      if times == [] then Calm(s.o, k)
      else -k.noise <= Seconds(t) - Seconds(last) - k.period <= k.noise
    case Cycle(t, _, _) =>
      && times != [] && last <= t + 34_000_000 && t <= last + 34_000_000
      && FitsInt32(s.o.i0.frames - s.h.frames)
      && (s.h.boot && s.o.i0.time != s.o.i1.time ==>
            FitsInt32(Round(Ideal.Error(LoadOverbridge(s.h, s.o), Seconds(t)))))
    case _ => true
  }

  /** A run of any events, resets included. After each of them the device may be another one. */
  predicate Steady(s: Loop, frames: uint32, start: nat, plan: seq<Clock>, events: seq<Event>) {
    Stretch(events) < |plan| &&
    (events == [] ||
     (var before, e := events[..|events| - 1], events[|events| - 1];
      && Steady(s, frames, start, plan, before)
      && Stretch(before) < |plan|
      && Promised(IdealRun(s, frames, before), plan[Stretch(before)], Times(before), LastArrival(before, start), e)))
  }

  /** What is known of a line during a steady run. */
  ghost predicate Follows(line: Overbridge, origin: Overbridge, frames: nat, k: Clock, times: seq<real>, last: nat) {
    && line == Ideal.ArriveAll(origin, frames, times)
    && Jittery(times, k.period, k.noise)
    && (times != [] ==> Calm(origin, k) && times[|times| - 1] == Seconds(last))
  }

  lemma FirstFollows(line: Overbridge, frames: nat, k: Clock, last: nat)
    ensures Follows(line, line, frames, k, [], last)
  {
  }

  lemma NextFollows(line: Overbridge, origin: Overbridge, frames: nat, k: Clock, times: seq<real>, last: nat, t: nat)
    requires Follows(line, origin, frames, k, times, last)
    requires if times == [] then Calm(line, k) else -k.noise <= Seconds(t) - Seconds(last) - k.period <= k.noise
    ensures Follows(Ideal.Arrive(line, frames, Seconds(t)), origin, frames, k, times + [Seconds(t)], t)
    ensures Calm(origin, k)
  {
    hide Calm, Ideal.Arrive, Seconds;
    ArriveOnce(origin, frames, times, Seconds(t));
    if times == [] { assert Ideal.ArriveAll(origin, frames, []) == origin; }
    hide Ideal.ArriveAll;
    var all := times + [Seconds(t)];
    forall j | 0 <= j < |all| - 1
      ensures -k.noise <= all[j + 1] - all[j] - k.period <= k.noise
    {
      if j < |times| - 1 { assert all[j + 1] == times[j + 1] && all[j] == times[j]; }
    }
  }

  lemma {:induction false} SteadyFollows(s: Loop, frames: uint32, start: nat, plan: seq<Clock>, events: seq<Event>)
    requires Steady(s, frames, start, plan, events)
    ensures Follows(IdealRun(s, frames, events).o, Origin(s, frames, events), frames, plan[Stretch(events)],
                    Times(events), LastArrival(events, start))
  {
    hide Follows, Calm, Seconds, Ideal.Arrive, Ideal.UpdateError, Ideal.Correct, ResetHost;
    if events == [] {
      FirstFollows(s.o, frames, plan[0], start);
    } else {
      var before, e := events[..|events| - 1], events[|events| - 1];
      var line, last := IdealRun(s, frames, before).o, LastArrival(before, start);
      SteadyFollows(s, frames, start, plan, before);
      if Restarts(e) {
        FirstFollows(IdealRun(s, frames, events).o, frames, plan[Stretch(events)], last);
      } else if e.Arrival? {
        NextFollows(line, Origin(s, frames, before), frames, plan[Stretch(before)], Times(before), last, e.t);
      }
    }
  }

  lemma SecondsApart(a: nat, b: nat, d: nat)
    ensures 0.0 <= Seconds(b) - Seconds(a) <= Seconds(d) <==> a <= b <= a + d
  {
  }

  lemma SteadyArrivalIsTame(i: Loop, origin: Overbridge, k: Clock, frames: uint32, times: seq<real>, last: nat, t: nat)
    requires Follows(i.o, origin, frames, k, times, last) && Promised(i, k, times, last, Arrival(t))
    ensures Tame(i, frames, last, Arrival(t))
  {
    NextFollows(i.o, origin, frames, k, times, last, t);
    if times != [] {
      SecondsApart(last, t, CLOCK_SPAN - 1);
      assert Seconds(CLOCK_SPAN - 1) == 268.435455;
    }
    hide Seconds, InReach, Jittery, Ideal.ArriveAll, Tame, Reserve, Square;
    ArrivalIsTame(origin, k, HALF, i, frames, times, last, t);
  }

  lemma SteadyCycleIsTame(i: Loop, origin: Overbridge, k: Clock, frames: uint32, times: seq<real>, last: nat, e: Event)
    requires Follows(i.o, origin, frames, k, times, last) && e.Cycle? && Promised(i, k, times, last, e)
    ensures Tame(i, frames, last, e)
  {
    SpanOnJitteryClock(origin, k.w, frames, k.period, times, k.noise, k.share, k.spread);
    LatenessInReach(origin, k, frames, times, HALF);
    StartsAtPrediction(origin, k.w, frames, times);
    ArrivedLine(origin, k.w, frames, times);
    assert -34.0 <= Seconds(e.t) - Seconds(last) <= 34.0;
    hide Seconds, Jittery, Ideal.ArriveAll, Ideal.Lateness, Ideal.Error, Reserve, Square, Gains, Absorbs, Product;
  }

  /** A steady run keeps the promises of the refinement. */
  lemma {:induction false} SteadyRunIsTame(s: Loop, frames: uint32, start: nat, plan: seq<Clock>, events: seq<Event>)
    requires Steady(s, frames, start, plan, events)
    ensures TameRun(s, frames, start, events)
  {
    hide Follows, Promised, IdealRun, LastArrival, Times, Origin;
    if events != [] {
      var before, e := events[..|events| - 1], events[|events| - 1];
      var i, k, last := IdealRun(s, frames, before), plan[Stretch(before)], LastArrival(before, start);
      SteadyRunIsTame(s, frames, start, plan, before);
      SteadyFollows(s, frames, start, plan, before);
      if e.Arrival? {
        SteadyArrivalIsTame(i, Origin(s, frames, before), k, frames, Times(before), last, e.t);
        hide Tame;
      } else if e.Cycle? {
        SteadyCycleIsTame(i, Origin(s, frames, before), k, frames, Times(before), last, e);
        hide Tame;
      }
    }
  }

  /** So in every such run the code's error, ratio and period are the ideal ones, over any number of wraps and of
      resets; and the period is near the device's: what the transfers since the last reset have left of the boot
      energy, and what the jitter sustains, bound the distance. */
  lemma SteadyRunIsIdeal(s: Loop, frames: uint32, start: nat, plan: seq<Clock>, events: seq<Event>)
    requires Steady(IdealOf(s), frames, start, plan, events)
    requires s.o.boot && frames < 0x8000_0000 && 0 <= s.h.frames < TWO32
    ensures var n, i := Run(s, frames, events), IdealRun(IdealOf(s), frames, events);
            && n.h.err == i.h.err && n.h.ratio == i.h.ratio && n.h.frames == U32(i.h.frames) && n.o.dt == i.o.dt
    ensures Times(events) != [] ==>
              var k, o := plan[Stretch(events)], Origin(IdealOf(s), frames, events);
              && Calm(o, k)
              && 0.36 * Square(k.period - Run(s, frames, events).o.dt)
                 <= JitterBound(k.w, k.noise, k.share, |Times(events)|, BootEnergy(o, k.period))
  {
    hide Run, IdealRun, TameRun, BootEnergy, Square, JitterBound, Origin, Times, LastArrival, Promised;
    var i := IdealOf(s);
    SteadyRunIsTame(i, frames, start, plan, events);
    ErrorsAndRatiosAreIdeal(s, frames, start, events);
    SteadyFollows(i, frames, start, plan, events);
    if Times(events) != [] {
      var k := plan[Stretch(events)];
      hide Gains, Absorbs, Jittery, Reserve, Ideal.ArriveAll, Product;
      PeriodOnJitteryClock(Origin(i, frames, events), k.w, frames, k.period, Times(events), k.noise, k.share);
    }
  }

  // ----- Which lines are calm -----

  lemma ScaledSquare(a: real, b: real, x: real)
    ensures Product(a * x, b * x) == (a * b) * Square(x)
  {
  }

  /** The boot energy of a line whose period is within a third of the device's. */
  lemma BootEnergyNear(o: Overbridge, w: real, period: real)
    requires Gains(o, w) && 0.0 < w < 0.003 && o.dt > 0.0 && -o.dt / 3.0 <= period - o.dt <= o.dt / 3.0
    ensures BootEnergy(o, period) <= 0.1132 * Square(o.dt)
  {
    hide Energy, Product, Square;
    var x, d := Product(w, -o.dt), period - o.dt;
    EnergyOfProduct(w, -o.dt, d);
    ConstantProduct(0.003, o.dt);
    BoundedProduct(w, -o.dt, 0.003, o.dt);
    BoundedProduct(x, x, 0.003 * o.dt, 0.003 * o.dt);
    BoundedProduct(x, d, 0.003 * o.dt, 0.3334 * o.dt);
    BoundedProduct(d, d, 0.3334 * o.dt, 0.3334 * o.dt);
    ScaledSquare(0.003, 0.003, o.dt);
    ScaledSquare(0.003, 0.3334, o.dt);
    ScaledSquare(0.3334, 0.3334, o.dt);
    SquareIsProduct(x);
    SquareIsProduct(d);
    SquareSign(o.dt);
  }

  lemma SquareIsProduct(x: real)
    ensures Square(x) == Product(x, x)
  {
  }

  lemma ConstantProduct(k: real, x: real)
    ensures Product(k, x) == k * x
  {
  }

  /** A share of half the gain leaves a decay, and twice the noise squared is about what jitter sustains. */
  lemma HalfTheGain(w: real, noise: real)
    requires 0.0 < w < 0.003
    ensures Absorbs(w, w / 2.0) && JitterEnergy(w, noise, w / 2.0) <= 2.1 * Square(noise)
  {
    var share, f := w / 2.0, JitterDecay(w, w / 2.0);
    DecayAtHalf(w);
    assert PushCost(w, share) <= 2.1 * w by { CostAtHalf(w); }
    SquareSign(noise);
    hide JitterDecay, PushCost, Square;
    var x, n := Product(PushCost(w, share), Square(noise)), Square(noise);
    NonNegativeProduct(2.1 * w - PushCost(w, share), n);
    assert x <= (2.1 * w) * n;
    NonNegativeProduct(1.0 - f - w, 2.1 * n);
    assert (2.1 * w) * n <= (2.1 * n) * (1.0 - f);
    BelowQuotient(x, 1.0 - f, 2.1 * n);
  }

  lemma DecayAtHalf(w: real)
    requires 0.0 < w < 0.003
    ensures JitterDecay(w, w / 2.0) <= 1.0 - w
  {
    var w2 := Square(w);
    PositiveProduct(w, w, w2);
    PositiveProduct(w, 0.003 - w, 0.003 * w - w2);
    PositiveProduct(w2, 0.003 - w, 0.003 * w2 - Product(w, w2));
    Expand(w, w2);
    hide Product, Square;
  }

  lemma Expand(w: real, w2: real)
    requires w2 == Square(w)
    ensures Product(1.0 + w / 2.0, 1.0 - 1.6 * w + w2) == 1.0 - 1.1 * w + 0.2 * w2 + 0.5 * Product(w, w2)
  {
    assert (1.0 + w / 2.0) * (1.0 - 1.6 * w + w2)
           == 1.0 - 1.6 * w + w2 + 0.5 * w - 0.8 * (w * w) + 0.5 * (w * w2);
  }

  lemma CostAtHalf(w: real)
    requires 0.0 < w < 0.003
    ensures PushCost(w, w / 2.0) <= 2.1 * w
  {
    var k := 1.0 / (w / 2.0);
    assert k * w == 2.0;
    assert (1.0 + k) * (w * w) == w * w + (k * w) * w;
    PositiveProduct(w, 0.003 - w, 0.003 * w - w * w);
  }

  /** Every line is calm whose period is within a third of the device's, with jitter of up to an eighth. */
  lemma CloseIsCalm(o: Overbridge, w: real, period: real, noise: real) returns (k: Clock)
    requires o.boot && Gains(o, w) && 0.0 < w < 0.003 && 0.0 < o.dt < 1.0 && 0.1 * o.dt <= w
    requires -o.dt / 3.0 <= period - o.dt <= o.dt / 3.0 && 0.0 <= noise <= o.dt / 8.0
    ensures Calm(o, k) && k == Clock(period, noise, w, w / 2.0, 0.64 * o.dt)
  {
    hide Gains, BootEnergy, JitterEnergy, Square, Product, Absorbs;
    k := Clock(period, noise, w, w / 2.0, 0.64 * o.dt);
    BootEnergyNear(o, w, period);
    HalfTheGain(w, noise);
    SquareOrder(noise, o.dt / 8.0);
    ScaledSquare(0.125, 0.125, o.dt);
    SquareIsProduct(0.125 * o.dt);
    assert o.dt / 8.0 == 0.125 * o.dt;
    ScaledSquare(0.64, 0.64, o.dt);
    SquareIsProduct(0.64 * o.dt);
    SquareSign(o.dt);
    ReachOfGain(w, o.dt);
  }

  lemma ReachOfGain(w: real, dt: real)
    requires 0.0 < dt && 0.1 * dt <= w
    ensures Square(0.64 * dt) <= Square(Product(w, HALF))
  {
    assert Product(w, HALF) == 34.0 * w;
    SquareOrder(0.64 * dt, 34.0 * w);
  }

  /** That is how the loop is initialised, for every size of transfer and every device whose period is within a
      third of the nominal one. */
  lemma NominalLineIsCalm(o: Overbridge, frames: nat, period: real, noise: real) returns (k: Clock)
    requires o.boot && 0 < frames <= 224
    requires var dt := frames as real / OB_SAMPLE_RATE;
             -dt / 3.0 <= period - dt <= dt / 3.0 && 0.0 <= noise <= dt / 8.0
    ensures Calm(OverbridgeInit(o, OB_SAMPLE_RATE, frames), k) && k.period == period && k.noise == noise
  {
    var w := ConfiguredGains(o, frames);
    var line := OverbridgeInit(o, OB_SAMPLE_RATE, frames);
    assert line.boot && 0.0 < line.dt < 1.0;
    hide OverbridgeInit, Gains, Calm;
    k := CloseIsCalm(line, w, period, noise);
  }

  // ----- After a reset -----

  /** What is left of an energy after m decays, when their number is at least 17 for each unit of the gain. */
  lemma LittleIsLeft(q: real, w: real, m: nat, v: real)
    requires 0.0 < q <= 1.0 - w && 0.0 < w < 1.0 && Product(m as real, w) >= 17.0 && v >= 0.0
    ensures 18.0 * Left(q, m, v) <= v
  {
    Bernoulli(q, m);
    PowStaysInUnit(q, m);
    var p := Pow(q, m);
    hide Pow;
    NonNegativeProduct(m as real, (1.0 - q) - w);
    assert m as real * (1.0 - q) >= 17.0;
    NonNegativeProduct(p, m as real * (1.0 - q) - 17.0);
    assert p * (1.0 + m as real * (1.0 - q)) == 18.0 * p + p * (m as real * (1.0 - q) - 17.0);
    NonNegativeProduct(1.0 - 18.0 * p, v);
    assert 18.0 * (p * v) == v - (1.0 - 18.0 * p) * v;
  }

  /** A device and a line that boots on it, near enough for CloseIsCalm, with jitter of up to a sixteenth. */
  predicate Close(o: Overbridge, w: real, period: real, noise: real) {
    && o.boot && Gains(o, w) && 0.0 < w < 0.003 && 0.0 < o.dt < 0.5 && 0.5 * o.dt <= w
    && -o.dt / 3.0 <= period - o.dt <= o.dt / 3.0 && 0.0 <= noise <= period / 16.0
  }

  /** After a stretch of at least 17 / w transfers, which is 27.1 seconds of them at the code's gain, the filtered
      period is within a quarter of the device's. */
  lemma PeriodIsFound(o: Overbridge, w: real, frames: nat, period: real, noise: real, times: seq<real>)
    requires Close(o, w, period, noise) && Product(|times| as real, w) >= 17.0 && Jittery(times, period, noise)
    ensures var dt := Ideal.ArriveAll(o, frames, times).dt; -period / 4.0 <= period - dt <= period / 4.0
  {
    assert |times| > 0;
    hide Left, JitterDecay, JitterEnergy, BootEnergy, Ideal.ArriveAll, Jittery, Gains, Square, Product;
    HalfTheGain(w, noise);
    DecayAtHalf(w);
    JitterSigns(w, noise, w / 2.0);
    BootEnergyNear(o, w, period);
    BootEnergyIsNotNegative(o, w, period);
    PeriodOnJitteryClock(o, w, frames, period, times, noise, w / 2.0);
    LittleIsLeft(JitterDecay(w, w / 2.0), w, |times|, BootEnergy(o, period));
    hide Absorbs;
    SquareOrder(o.dt, 1.5 * period);
    SquareOrder(noise, period / 16.0);
    SquareSign(noise);
    SquareScales(1.5, period);
    SquareScales(0.0625, period);
    SquareScales(0.25, period);
    assert period / 16.0 == 0.0625 * period && period / 4.0 == 0.25 * period;
    SquareSign(period);
    SquareOrder(period - Ideal.ArriveAll(o, frames, times).dt, 0.25 * period);
  }

  lemma SquareScales(k: real, x: real)
    ensures Square(k * x) == (k * k) * Square(x)
  {
  }

  /** So the line is calm when a reset makes it boot again: the calm that a steady run asks for after a reset is
      there from some 27 seconds on. */
  lemma RestartIsCalm(o: Overbridge, w: real, frames: nat, period: real, noise: real, times: seq<real>)
    returns (k: Clock)
    requires Close(o, w, period, noise) && Product(|times| as real, w) >= 17.0 && Jittery(times, period, noise)
    ensures Calm(Ideal.ArriveAll(o, frames, times).(boot := true), k) && k.period == period && k.noise == noise
  {
    PeriodIsFound(o, w, frames, period, noise, times);
    ArrivedLine(o, w, frames, times);
    hide Ideal.ArriveAll, Jittery;
    var line := Ideal.ArriveAll(o, frames, times).(boot := true);
    assert Gains(line, w);
    hide Gains;
    k := CloseIsCalm(line, w, period, noise);
  }

  /** One more event of a steady run. */
  lemma OneMoreIsSteady(s: Loop, frames: uint32, start: nat, plan: seq<Clock>, before: seq<Event>, e: Event)
    requires Steady(s, frames, start, plan, before) && Stretch(before + [e]) < |plan| && Stretch(before) < |plan|
    requires Promised(IdealRun(s, frames, before), plan[Stretch(before)], Times(before), LastArrival(before, start), e)
    ensures Steady(s, frames, start, plan, before + [e])
  {
    hide Promised, IdealRun, Times, LastArrival, Stretch;
    assert (before + [e])[..|before|] == before;
  }

  lemma OneMoreEvent(s: Loop, frames: uint32, start: nat, before: seq<Event>, e: Event)
    ensures IdealRun(s, frames, before + [e]) == IdealStep(IdealRun(s, frames, before), frames, e)
    ensures Stretch(before + [e]) == Stretch(before) + if Restarts(e) then 1 else 0
    ensures Times(before + [e])
            == if Restarts(e) then [] else if e.Arrival? then Times(before) + [Seconds(e.t)] else Times(before)
    ensures LastArrival(before + [e], start) == if e.Arrival? then e.t else LastArrival(before, start)
  {
    hide IdealStep, Seconds;
    assert (before + [e])[..|before|] == before;
  }

  /** The counter that the code computes at 48 kHz, 2^32 less the frames of a transfer, keeps the promises: a reset,
      a transfer that boots the line and a cycle are a steady run. */
  lemma FirstCycleIsSteady(s: Loop, frames: uint32, start: nat, first: Clock, k: Clock, outputFrames: nat, wild: uint32,
                           t0: nat, c: Event)
    requires 0 < frames <= 224 && outputFrames <= 8192 && Calm(s.o.(boot := true), k)
    requires frames as real * 68.0 <= 1000000000.0 * (k.period - k.spread)
    requires c.Cycle? && t0 <= c.t + 34_000_000 && c.t <= t0 + 34_000_000
    ensures Counter(frames, 1.0, wild) == TWO32 - frames
    ensures Steady(s, frames, start, [first, k], [Reset(48000.0, outputFrames, frames, wild), Arrival(t0), c])
  {
    var r, a, plan := Reset(48000.0, outputFrames, frames, wild), Arrival(t0), [first, k];
    CounterAtNominalRate(frames, wild);
    ResetAtNominalRate(s, frames, r);
    hide Calm, IdealStep, Seconds, Counter;
    OneMoreEvent(s, frames, start, [], r);
    OneMoreIsSteady(s, frames, start, plan, [], r);
    assert [] + [r] == [r];
    OneMoreEvent(s, frames, start, [r], a);
    OneMoreIsSteady(s, frames, start, plan, [r], a);
    assert [r] + [a] == [r, a];
    OneMoreEvent(s, frames, start, [r, a], c);
    FirstCycleIsPromised(IdealStep(s, frames, r), frames, k, outputFrames, t0, c);
    assert [Seconds(t0)] == [] + [Seconds(t0)];
    OneMoreIsSteady(s, frames, start, plan, [r, a], c);
    assert [r, a] + [c] == [r, a, c];
  }

  lemma CounterAtNominalRate(frames: uint32, wild: uint32)
    requires 0 < frames
    ensures Counter(frames, 1.0, wild) == TWO32 - frames
  {
    CounterIsDefined(frames, 1.0, wild, wild);
  }

  lemma ResetAtNominalRate(s: Loop, frames: uint32, r: Event)
    requires r.Reset? && r.outputRate == 48000.0 && r.inputFrames == frames && 0 < frames <= 224
    ensures var n := IdealStep(s, frames, r);
            && n.o == s.o.(boot := true) && n.h.frames == 0 - frames
            && n.h.targetDelay == ToInt(Trunc(2.0 * frames as real + 1.5 * r.outputFrames as real))
  {
    CounterAtNominalRate(frames, r.counter);
    hide Counter;
    assert r.outputRate / OB_SAMPLE_RATE == 1.0;
  }

  /** The line and the place of a cycle after one transfer. */
  lemma OneTransferInReach(o: Overbridge, frames: uint32, k: Clock, t0: nat, t: nat)
    requires Calm(o, k) && t0 <= t + 34_000_000 && t <= t0 + 34_000_000
    ensures var n := Ideal.Arrive(o, frames, Seconds(t0));
            && n.i0.frames == frames && n.i1.frames == 2 * frames
            && -68.0 <= Seconds(t) - n.i0.time <= 68.0
            && n.i1.time - n.i0.time >= k.period - k.spread > 0.0
  {
    var times := [Seconds(t0)];
    assert times[..0] == [];
    SpanOnJitteryClock(o, k.w, frames, k.period, times, k.noise, k.share, k.spread);
    LatenessInReach(o, k, frames, times, HALF);
    StartsAtPrediction(o, k.w, frames, times);
    assert Ideal.Arrive(o, frames, Seconds(t0)) == Ideal.ArriveAll(o, frames, times);
    assert -34.0 <= Seconds(t) - Seconds(t0) <= 34.0;
    hide Ideal.ArriveAll, Ideal.Lateness, Reserve, Square, Gains, Absorbs, Product, Seconds;
  }

  lemma FirstCycleIsPromised(s: Loop, frames: uint32, k: Clock, outputFrames: nat, t0: nat, c: Event)
    requires 0 < frames <= 224 && outputFrames <= 8192 && Calm(s.o, k) && s.h.frames == 0 - frames
    requires s.h.targetDelay == ToInt(Trunc(2.0 * frames as real + 1.5 * outputFrames as real))
    requires frames as real * 68.0 <= 1000000000.0 * (k.period - k.spread)
    requires c.Cycle? && t0 <= c.t + 34_000_000 && c.t <= t0 + 34_000_000
    ensures Promised(IdealStep(s, frames, Arrival(t0)), k, [Seconds(t0)], t0, c)
  {
    OneTransferInReach(s.o, frames, k, t0, c.t);
    assert 0 <= s.h.targetDelay <= 20000;
    hide Calm, Seconds, Ideal.Arrive;
    var n := IdealStep(s, frames, Arrival(t0));
    ErrorInReach(LoadOverbridge(n.h, n.o), frames, Seconds(c.t), k.period - k.spread);
  }

  lemma ErrorInReach(h: Host, frames: nat, time: real, least: real)
    requires h.frames == 0 - frames && h.i0.frames == frames && h.i1.frames == 2 * frames
    requires 0 < frames <= 224 && 0 <= h.targetDelay <= 20000
    requires -68.0 <= time - h.i0.time <= 68.0 && h.i1.time - h.i0.time >= least > 0.0
    requires frames as real * 68.0 <= 1000000000.0 * least
    ensures FitsInt32(Round(Ideal.Error(h, time)))
  {
    QuotientInReach(frames, time - h.i0.time, h.i1.time - h.i0.time, least);
    hide Proportion;
    RoundInReach(Ideal.Error(h, time));
  }

  lemma QuotientInReach(frames: nat, part: real, span: real, least: real)
    requires -68.0 <= part <= 68.0 && span >= least > 0.0 && frames as real * 68.0 <= 1000000000.0 * least
    ensures -1000000000.0 <= Proportion(frames, part, span) <= 1000000000.0
  {
    var f := frames as real;
    var x := Product(f, part);
    BoundedProduct(f, part, f, 68.0);
    assert Product(f, 68.0) == 68.0 * f;
    assert Proportion(frames, part, span) == x / span;
    hide Product, Proportion;
    BelowQuotient(x, span, 1000000000.0);
    BelowQuotient(-x, span, 1000000000.0);
    NegatedQuotient(x, span);
  }

  lemma RoundInReach(r: real)
    requires -2000000000.0 <= r <= 2000000000.0
    ensures FitsInt32(Round(r))
  {
  }
}
