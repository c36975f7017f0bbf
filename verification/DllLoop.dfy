/** The filter of the Overbridge side as a dynamical system: it locks on an exact clock, it stays
    near a jittery one, and the span that the host divides by stays positive. */
module DllLoop {
  import opened Reals
  import opened Dll
  import opened Ideal

  /** The energy of a prediction that is `e` seconds early and `d` seconds per transfer short. */
  function Energy(w1: real, w2: real, e: real, d: real): real {
    w2 * e * e - w1 * e * d + d * d
  }

  /** The energy of a line just before an arrival at `time` of a clock with this period. */
  function LineEnergy(o: Overbridge, period: real, time: real): real {
    Energy(o.w1, o.w2, time - o.i1.time, period - o.dt)
  }

  /** The factor by which one arrival on an exact clock changes the energy. */
  function Decay(w: real): real {
    1.0 - 1.6 * w + Square(w)
  }

  predicate Gains(o: Overbridge, w: real) {
    o.w1 == 1.6 * w && o.w2 == Square(w)
  }

  /** What n decays by q leave of v. */
  function Left(q: real, n: nat, v: real): real {
    Product(Pow(q, n), v)
  }

  // ----- Real arithmetic -----

  lemma SquareSign(x: real)
    ensures Square(x) >= 0.0
    ensures x != 0.0 ==> Square(x) > 0.0
  {
    if x > 0.0 { PositiveProduct(x, x, Square(x)); }
    if x < 0.0 { PositiveProduct(-x, -x, Square(x)); }
  }

  lemma SquareOrder(x: real, c: real)
    requires c >= 0.0
    ensures -c <= x <= c <==> Square(x) <= Square(c)
  {
    var d := Square(c) - Square(x);
    if -c <= x <= c { NonNegativeProduct(c - x, c + x); }
    if x > c { PositiveProduct(x - c, x + c, -d); }
    if x < -c { PositiveProduct(c - x, -c - x, -d); }
  }

  lemma ProductSign(a: real, b: real)
    requires a >= 0.0 && b >= 0.0
    ensures Product(a, b) >= 0.0
  {
    NonNegativeProduct(a, b);
  }

  lemma ProductOrder(a: real, b: real, c: real)
    requires a >= 0.0 && b <= c
    ensures Product(a, b) <= Product(a, c)
  {
    NonNegativeProduct(a, c - b);
  }

  lemma LeftStep(q: real, n: nat, v: real)
    ensures Left(q, n + 1, v) == Product(q, Left(q, n, v))
  {
    Associative(q, Pow(q, n), v);
  }

  lemma Associative(a: real, b: real, c: real)
    ensures Product(Product(a, b), c) == Product(a, Product(b, c))
  {
  }

  lemma LeftStart(q: real, v: real)
    ensures Left(q, 0, v) == v
  {
  }

  lemma {:induction false} PowStaysInUnit(q: real, n: nat)
    requires 0.0 < q < 1.0
    ensures 0.0 < Pow(q, n) <= 1.0
  {
    if n > 0 {
      PowStaysInUnit(q, n - 1);
      FactorInUnit(q, Pow(q, n - 1));
    }
  }

  lemma FactorInUnit(q: real, p: real)
    requires 0.0 < q < 1.0 && p > 0.0
    ensures 0.0 < Product(q, p) < p
  {
    PositiveProduct(q, p, Product(q, p));
    PositiveProduct(1.0 - q, p, p - Product(q, p));
  }

  lemma LeftShrinks(q: real, n: nat, v: real)
    requires 0.0 < q < 1.0 && v >= 0.0
    ensures 0.0 <= Left(q, n, v) <= v
  {
    PowStaysInUnit(q, n);
    var p := Pow(q, n);
    hide Pow;
    NonNegativeProduct(p, v);
    NonNegativeProduct(1.0 - p, v);
  }

  // ----- The energy -----

  /** The next errors on an exact clock carry exactly the decayed energy. */
  lemma EnergyDecays(w1: real, w2: real, e: real, d: real)
    ensures Energy(w1, w2, (e - Product(w1, e)) + d, d - Product(w2, e))
            == Product(1.0 - w1 + w2, Energy(w1, w2, e, d))
  {
    assert Energy(w1, w2, (1.0 - w1) * e + d, d - w2 * e) == (1.0 - w1 + w2) * Energy(w1, w2, e, d);
    assert (1.0 - w1) * e + d == (e - Product(w1, e)) + d;
  }

  /** The energy bounds both errors and the error of the next span. */
  lemma EnergyBounds(w: real, w1: real, w2: real, e: real, d: real)
    requires w1 == 1.6 * w && w2 == Square(w)
    ensures Energy(w1, w2, e, d) >= 0.36 * Square(d) >= 0.0
    ensures Energy(w1, w2, e, d) >= 0.36 * Square(Product(w, e))
    ensures Energy(w1, w2, e, d) >= 0.36 * Square(Product(w1, e) - d)
  {
    hide Energy, Product, Square;
    var x := Product(w, e);
    EnergyOfProduct(w, e, d);
    ProductScales(1.6, w, e);
    SquareSign(d);
    ShareIsLeft(1.0, x, 0.8, d);
    ShareIsLeft(0.8, x, 1.0, d);
    ShareIsLeft(0.28, x, 0.8, d);
    SquareOfDifference(1.6, x, 1.0, d);
  }

  lemma ProductScales(k: real, a: real, b: real)
    ensures Product(k * a, b) == k * Product(a, b)
  {
  }

  lemma ShareIsLeft(a: real, x: real, b: real, d: real)
    ensures (a * a) * Square(x) - (2.0 * a * b) * Product(x, d) + (b * b) * Square(d) >= 0.0
  {
    hide Product, Square;
    SquareOfDifference(a, x, b, d);
    SquareSign(a * x - b * d);
  }

  lemma SquareOfDifference(a: real, x: real, b: real, d: real)
    ensures Square(a * x - b * d) == (a * a) * Square(x) - (2.0 * a * b) * Product(x, d) + (b * b) * Square(d)
  {
  }

  lemma EnergyOfProduct(w: real, e: real, d: real)
    ensures Energy(1.6 * w, Square(w), e, d) == Square(Product(w, e)) - 1.6 * Product(Product(w, e), d) + Square(d)
  {
    assert w * w * e * e == (w * e) * (w * e);
    assert 1.6 * w * e * d == 1.6 * ((w * e) * d);
  }

  /** What a push of one second costs when `share` of the energy may be spent on it. */
  function PushCost(w: real, share: real): real
    requires share > 0.0
  {
    (1.0 + 1.0 / share) * (w * w)
  }

  /** A push of `n` seconds costs at most a share of the energy plus a term in n squared. */
  lemma EnergyAfterPush(w: real, e: real, d: real, n: real, share: real)
    requires share > 0.0
    ensures Energy(1.6 * w, Square(w), e + n, d)
            <= Product(1.0 + share, Energy(1.6 * w, Square(w), e, d)) + Product(PushCost(w, share), Square(n))
  {
    var w1, w2, k := 1.6 * w, w * w, 1.0 / share;
    assert k * share == 1.0;
    var v := Energy(w1, w2, share * e - n, share * d);
    assert k * v >= 0.0 by {
      EnergyBounds(w, w1, w2, share * e - n, share * d);
      NonNegativeProduct(k, v);
    }
    var cross := 2.0 * w2 * e * n - w1 * n * d;
    assert v == share * share * Energy(w1, w2, e, d) - share * cross + w2 * n * n;
    assert k * v == (k * share) * share * Energy(w1, w2, e, d) - (k * share) * cross + k * w2 * n * n;
    assert Energy(w1, w2, e + n, d) == Energy(w1, w2, e, d) + cross + w2 * n * n;
    assert PushCost(w, share) * Square(n) == w2 * n * n + k * w2 * n * n;
  }

  lemma DecayRange(w: real)
    ensures Decay(w) >= 0.36
    ensures 0.0 < w < 1.6 ==> Decay(w) < 1.0
  {
    assert Decay(w) == Square(w - 0.8) + 0.36;
    SquareSign(w - 0.8);
    if 0.0 < w < 1.6 {
      PositiveProduct(w, 1.6 - w, 1.0 - Decay(w));
    }
  }

  /** The gains that the code computes for every size of transfer it can be asked for
      (at most 32 blocks of 7 frames) are well inside the range of the theorems below. */
  lemma ConfiguredGains(o: Overbridge, frames: nat) returns (w: real)
    requires 0 < frames <= 224
    ensures Gains(OverbridgeInit(o, OB_SAMPLE_RATE, frames), w) && 0.0 < w < 0.003
    ensures OverbridgeInit(o, OB_SAMPLE_RATE, frames).dt == frames as real / 48000.0
    ensures 0.6 * OverbridgeInit(o, OB_SAMPLE_RATE, frames).dt < w < OverbridgeInit(o, OB_SAMPLE_RATE, frames).dt
  {
    var dt := frames as real / 48000.0;
    w := 2.0 * PI * 0.1 * dt;
  }

  // ----- One arrival -----

  /** Where one arrival leads, in terms of the two errors it finds. */
  lemma ArrivalOnTime(o: Overbridge, frames: nat, period: real, time: real, next: real)
    requires !o.boot
    ensures var e, d := time - o.i1.time, period - o.dt;
            LineEnergy(Arrive(o, frames, time), period, next)
            == Energy(o.w1, o.w2, (e - Product(o.w1, e)) + d + (next - time - period), d - Product(o.w2, e))
  {
    hide Energy, Product;
    var e, d, n := time - o.i1.time, period - o.dt, Arrive(o, frames, time);
    assert next - n.i1.time == (e - Product(o.w1, e)) + d + (next - time - period);
    assert period - n.dt == d - Product(o.w2, e);
  }

  lemma SpanAfterArrival(o: Overbridge, frames: nat, period: real, time: real)
    requires !o.boot
    ensures var n := Arrive(o, frames, time);
            n.i1.time - n.i0.time == period + (Product(o.w1, time - o.i1.time) - (period - o.dt))
  {
    hide Product;
  }

  lemma ArrivalKeepsGains(o: Overbridge, w: real, frames: nat, time: real)
    requires Gains(o, w)
    ensures Gains(Arrive(o, frames, time), w) && !Arrive(o, frames, time).boot
  {
    hide Product, Square;
  }

  lemma EnergyStep(o: Overbridge, w: real, frames: nat, period: real, time: real)
    requires !o.boot && Gains(o, w)
    ensures LineEnergy(Arrive(o, frames, time), period, time + period) == Product(Decay(w), LineEnergy(o, period, time))
  {
    hide Energy, Arrive, Lateness, Product, Square;
    var e, d := time - o.i1.time, period - o.dt;
    ArrivalOnTime(o, frames, period, time, time + period);
    EnergyDecays(o.w1, o.w2, e, d);
    assert (e - Product(o.w1, e)) + d + (time + period - time - period) == (e - Product(o.w1, e)) + d;
    assert 1.0 - o.w1 + o.w2 == Decay(w);
  }

  /** The span the host divides by is off the period by at most c when the energy is at most 0.36 c^2. */
  lemma SpanNearPeriod(o: Overbridge, w: real, frames: nat, period: real, time: real, c: real)
    requires !o.boot && Gains(o, w) && c >= 0.0
    requires LineEnergy(o, period, time) <= 0.36 * Square(c)
    ensures var n := Arrive(o, frames, time); period - c <= n.i1.time - n.i0.time <= period + c
  {
    hide Energy, Arrive, Lateness, Square, Product;
    SpanAfterArrival(o, frames, period, time);
    var e, d := time - o.i1.time, period - o.dt;
    EnergyBounds(w, o.w1, o.w2, e, d);
    SquareOrder(Product(o.w1, e) - d, c);
  }

  /** And so is the filtered period. */
  lemma PeriodNear(o: Overbridge, w: real, period: real, time: real)
    requires Gains(o, w)
    ensures 0.36 * Square(period - o.dt) <= LineEnergy(o, period, time)
  {
    hide Energy, Square, Product;
    EnergyBounds(w, o.w1, o.w2, time - o.i1.time, period - o.dt);
  }

  // ----- Booting -----

  /** The energy right after booting: the first transfer counts as one period late. */
  function BootEnergy(o: Overbridge, period: real): real {
    Energy(o.w1, o.w2, -o.dt, period - o.dt)
  }

  lemma BootEnergyIsNotNegative(o: Overbridge, w: real, period: real)
    requires Gains(o, w)
    ensures BootEnergy(o, period) >= 0.0
  {
    hide Energy, Square, Product;
    EnergyBounds(w, o.w1, o.w2, -o.dt, period - o.dt);
    SquareSign(period - o.dt);
  }

  lemma BootLine(o: Overbridge, w: real, frames: nat, period: real, time: real)
    requires o.boot && Gains(o, w)
    ensures var b := Booted(o, frames, time);
            && !b.boot && Gains(b, w)
            && Arrive(o, frames, time) == Arrive(b, frames, time)
            && LineEnergy(b, period, time) == BootEnergy(o, period)
  {
    hide Energy, Product, Square;
    assert time - (time + o.dt) == -o.dt;
  }

  /** The line that the last of some arrivals finds, once the first of them has booted it. */
  function Found(o: Overbridge, frames: nat, times: seq<real>): Overbridge
    requires |times| > 0
  {
    if |times| == 1 then Booted(o, frames, times[0]) else ArriveAll(o, frames, times[..|times| - 1])
  }

  lemma FoundThenArrived(o: Overbridge, w: real, frames: nat, times: seq<real>)
    requires o.boot && Gains(o, w) && |times| > 0
    ensures ArriveAll(o, frames, times) == Arrive(Found(o, frames, times), frames, times[|times| - 1])
    ensures Lateness(ArriveAll(o, frames, times[..|times| - 1]), frames, times[|times| - 1])
            == times[|times| - 1] - Found(o, frames, times).i1.time
    ensures !Found(o, frames, times).boot && Gains(Found(o, frames, times), w)
  {
    hide Arrive, Product, Square;
    if |times| == 1 {
      assert times[..0] == [];
      BootLine(o, w, frames, 0.0, times[0]);
    } else {
      ArrivedLine(o, w, frames, times[..|times| - 1]);
    }
  }

  lemma {:induction false} ArrivedLine(o: Overbridge, w: real, frames: nat, times: seq<real>)
    requires Gains(o, w)
    ensures var line := ArriveAll(o, frames, times); Gains(line, w) && (times != [] ==> !line.boot)
  {
    if times != [] {
      ArrivedLine(o, w, frames, times[..|times| - 1]);
      ArrivalKeepsGains(ArriveAll(o, frames, times[..|times| - 1]), w, frames, times[|times| - 1]);
      hide Arrive, Square;
    }
  }

  // ----- An exact clock -----

  function TickAt(time: real, period: real, n: nat): real {
    time + n as real * period
  }

  /** The arrivals time, time + period, time + 2 period, ... */
  function Ticks(time: real, period: real, n: nat): seq<real> {
    seq(n, (k: nat) => TickAt(time, period, k))
  }

  lemma TickFacts(time: real, period: real, n: nat)
    ensures TickAt(time, period, 0) == time
    ensures TickAt(time, period, n + 1) == TickAt(time, period, n) + period
  {
  }

  lemma TicksSplit(time: real, period: real, n: nat)
    requires n > 0
    ensures Ticks(time, period, n)[..n - 1] == Ticks(time, period, n - 1)
    ensures Ticks(time, period, n)[n - 1] == TickAt(time, period, n - 1)
  {
    hide TickAt;
  }

  /** The last of n arrivals of an exact clock finds what n - 1 decays leave of the boot energy. */
  lemma {:induction false} EnergyFound(o: Overbridge, w: real, frames: nat, time: real, period: real, n: nat)
    requires o.boot && Gains(o, w) && n > 0
    ensures LineEnergy(Found(o, frames, Ticks(time, period, n)), period, TickAt(time, period, n - 1))
            == Left(Decay(w), n - 1, BootEnergy(o, period))
    decreases n, 0
  {
    hide LineEnergy, BootEnergy, Decay, Left, TickAt, Arrive, Booted, Gains;
    TickFacts(time, period, 0);
    TicksSplit(time, period, n);
    if n == 1 {
      BootLine(o, w, frames, period, time);
      LeftStart(Decay(w), BootEnergy(o, period));
    } else {
      EnergyOnExactClock(o, w, frames, time, period, n - 1);
    }
    hide Ticks, ArriveAll;
  }

  /** After n arrivals of an exact clock the energy is exactly what n decays leave of the boot energy. */
  lemma {:induction false} EnergyOnExactClock(o: Overbridge, w: real, frames: nat, time: real, period: real, n: nat)
    requires o.boot && Gains(o, w) && n > 0
    ensures var line := ArriveAll(o, frames, Ticks(time, period, n));
            && !line.boot && Gains(line, w)
            && LineEnergy(line, period, TickAt(time, period, n)) == Left(Decay(w), n, BootEnergy(o, period))
    decreases n, 1
  {
    hide LineEnergy, BootEnergy, Decay, Left, TickAt, Arrive, ArriveAll, Found, Gains;
    var times, last := Ticks(time, period, n), TickAt(time, period, n - 1);
    TicksSplit(time, period, n);
    TickFacts(time, period, n - 1);
    hide Ticks;
    EnergyFound(o, w, frames, time, period, n);
    FoundThenArrived(o, w, frames, times);
    var before := Found(o, frames, times);
    EnergyStep(before, w, frames, period, last);
    ArrivalKeepsGains(before, w, frames, last);
    LeftStep(Decay(w), n - 1, BootEnergy(o, period));
  }

  /** The filtered period converges geometrically to the true one. */
  lemma PeriodConverges(o: Overbridge, w: real, frames: nat, time: real, period: real, n: nat)
    requires o.boot && Gains(o, w) && n > 0
    ensures var line := ArriveAll(o, frames, Ticks(time, period, n));
            0.36 * Square(period - line.dt) <= Left(Decay(w), n, BootEnergy(o, period))
  {
    hide LineEnergy, ArriveAll, Ticks, BootEnergy, Left, Decay, Square, Gains, TickAt;
    EnergyOnExactClock(o, w, frames, time, period, n);
    PeriodNear(ArriveAll(o, frames, Ticks(time, period, n)), w, period, TickAt(time, period, n));
  }

  lemma BernoulliStep(q: real, x: real, p: real, m: real)
    requires 0.0 < q < 1.0 && m >= 0.0 && p >= 0.0 && x == 1.0 + m * (1.0 - q) && p * x <= 1.0
    ensures (q * p) * (x + (1.0 - q)) <= 1.0
  {
    var d := 1.0 - q;
    assert m * d >= 0.0;
    assert d * (x - q) >= 0.0;
    var y := q * (x + d);
    assert y <= x by { assert x - y == d * (x - q); }
    assert (q * p) * (x + d) == p * y;
    assert p * (x - y) >= 0.0;
  }

  /** Bernoulli's inequality, for the reciprocal of a power. */
  lemma {:induction false} Bernoulli(q: real, n: nat)
    requires 0.0 < q < 1.0
    ensures Pow(q, n) * (1.0 + n as real * (1.0 - q)) <= 1.0
  {
    if n > 0 {
      Bernoulli(q, n - 1);
      PowStaysInUnit(q, n - 1);
      var p, d := Pow(q, n - 1), 1.0 - q;
      var x := 1.0 + (n - 1) as real * d;
      assert 1.0 + n as real * d == x + d;
      BernoulliStep(q, x, p, (n - 1) as real);
      assert Pow(q, n) == q * p;
    }
  }

  lemma BelowReciprocal(q: real, eps: real, m: real, p: real)
    requires 0.0 < q < 1.0 && eps > 0.0 && p > 0.0
    requires eps * (1.0 - q) > 0.0 && m >= 1.0 / (eps * (1.0 - q))
    requires p * (1.0 + m * (1.0 - q)) <= 1.0
    ensures p <= eps
  {
    var g, d := eps * (1.0 - q), 1.0 - q;
    var need := 1.0 / g;
    assert need * g == 1.0;
    NonNegativeProduct(m - need, g);
    assert m * g >= 1.0;
    assert need > 0.0;
    NonNegativeProduct(m, d);
    var x := 1.0 + m * d;
    assert eps * x == eps + m * g;
    if p > eps { PositiveProduct(p - eps, x, p * x - eps * x); }
  }

  lemma PowVanishes(q: real, eps: real) returns (n: nat)
    requires 0.0 < q < 1.0 && eps > 0.0
    ensures n > 0 && forall m: nat :: m >= n ==> Pow(q, m) <= eps
  {
    var g := eps * (1.0 - q);
    PositiveProduct(eps, 1.0 - q, g);
    var need := 1.0 / g;
    assert need > 0.0;
    n := need.Floor + 1;
    forall m: nat | m >= n
      ensures Pow(q, m) <= eps
    {
      assert m as real >= need;
      Bernoulli(q, m);
      PowStaysInUnit(q, m);
      hide Pow;
      BelowReciprocal(q, eps, m as real, Pow(q, m));
    }
  }

  lemma ShareOfGoal(q: real, n: nat, goal: real, v: real)
    requires v >= 0.0 && goal > 0.0 && Pow(q, n) <= goal / (v + 1.0)
    ensures Left(q, n, v) <= goal
  {
    var p, x := Pow(q, n), goal / (v + 1.0);
    hide Pow;
    assert x * (v + 1.0) == goal;
    NonNegativeProduct(x - p, v);
    PositiveQuotient(goal, v + 1.0);
  }

  /** The loop locks: whatever the nominal period was, the filtered one gets as close to the
      true period as one likes, and stays there. */
  lemma LoopLocks(o: Overbridge, w: real, frames: nat, time: real, period: real, tolerance: real) returns (n: nat)
    requires o.boot && Gains(o, w) && 0.0 < w < 1.6 && tolerance > 0.0
    ensures n > 0 && forall m: nat :: m >= n ==>
              var line := ArriveAll(o, frames, Ticks(time, period, m));
              period - tolerance <= line.dt <= period + tolerance
  {
    hide ArriveAll, Ticks, Pow, BootEnergy, Square, Decay, Left, Gains;
    SquareSign(tolerance);
    var goal, v := 0.36 * Square(tolerance), BootEnergy(o, period);
    BootEnergyIsNotNegative(o, w, period);
    PositiveQuotient(goal, v + 1.0);
    DecayRange(w);
    n := PowVanishes(Decay(w), goal / (v + 1.0));
    forall m: nat | m >= n
      ensures var line := ArriveAll(o, frames, Ticks(time, period, m));
              period - tolerance <= line.dt <= period + tolerance
    {
      PeriodConverges(o, w, frames, time, period, m);
      var line := ArriveAll(o, frames, Ticks(time, period, m));
      ShareOfGoal(Decay(w), m, goal, v);
      SquareOrder(period - line.dt, tolerance);
    }
  }

  /** On an exact clock the span is off the period by at most c, when the boot energy is at most 0.36 c^2. */
  lemma SpanOnExactClock(o: Overbridge, w: real, frames: nat, time: real, period: real, n: nat, c: real)
    requires o.boot && Gains(o, w) && 0.0 < w < 1.6 && n > 0 && c >= 0.0
    requires BootEnergy(o, period) <= 0.36 * Square(c)
    ensures var line := ArriveAll(o, frames, Ticks(time, period, n));
            period - c <= line.i1.time - line.i0.time <= period + c
  {
    hide Arrive, ArriveAll, LineEnergy, BootEnergy, Square, Found, Left, Decay, TickAt, Gains;
    var times := Ticks(time, period, n);
    TicksSplit(time, period, n);
    hide Ticks;
    EnergyFound(o, w, frames, time, period, n);
    FoundThenArrived(o, w, frames, times);
    BootEnergyIsNotNegative(o, w, period);
    DecayRange(w);
    LeftShrinks(Decay(w), n - 1, BootEnergy(o, period));
    SpanNearPeriod(Found(o, frames, times), w, frames, period, times[n - 1], c);
  }

  lemma NominalBootEnergy(o: Overbridge, w: real, c: real)
    requires Gains(o, w) && c == w * o.dt / 0.6
    ensures BootEnergy(o, o.dt) == 0.36 * Square(c)
  {
    assert c * 0.6 == w * o.dt;
    assert BootEnergy(o, o.dt) == (w * o.dt) * (w * o.dt);
  }

  lemma SpanFraction(dt: real, w: real, c: real)
    requires c == w * dt / 0.6 && dt > 0.0 && 0.0 < w < 0.6
    ensures dt * (1.0 - w / 0.6) == dt - c > 0.0 && c >= 0.0
  {
    var f := w / 0.6;
    assert c == dt * f;
    assert 0.0 < f < 1.0;
    assert dt * f >= 0.0;
    assert dt * (1.0 - f) > 0.0;
  }

  /** Booted on a clock whose period is the nominal one, the span that the host divides by
      never gets below dt (1 - w / 0.6). */
  lemma SpanStaysPositive(o: Overbridge, w: real, frames: nat, time: real, n: nat)
    requires o.boot && Gains(o, w) && 0.0 < w < 0.6 && o.dt > 0.0 && n > 0
    ensures var line := ArriveAll(o, frames, Ticks(time, o.dt, n));
            line.i1.time - line.i0.time >= o.dt * (1.0 - w / 0.6) > 0.0
  {
    var c := w * o.dt / 0.6;
    hide ArriveAll, BootEnergy, Square, Gains, Ticks;
    NominalBootEnergy(o, w, c);
    SpanFraction(o.dt, w, c);
    SpanOnExactClock(o, w, frames, time, o.dt, n, c);
  }

  // ----- A jittery clock -----

  /** Arrivals whose distance from one to the next is the period up to `noise`. */
  predicate Jittery(times: seq<real>, period: real, noise: real) {
    forall k :: 0 <= k < |times| - 1 ==> -noise <= times[k + 1] - times[k] - period <= noise
  }

  lemma JitteryPrefix(times: seq<real>, period: real, noise: real)
    requires |times| > 0 && Jittery(times, period, noise)
    ensures Jittery(times[..|times| - 1], period, noise)
    ensures |times| > 1 ==> -noise <= times[|times| - 1] - times[|times| - 2] - period <= noise
  {
    var prefix := times[..|times| - 1];
    forall k | 0 <= k < |prefix| - 1
      ensures -noise <= prefix[k + 1] - prefix[k] - period <= noise
    {
      assert prefix[k + 1] == times[k + 1] && prefix[k] == times[k];
    }
    if |times| > 1 { assert -noise <= times[(|times| - 2) + 1] - times[|times| - 2] - period <= noise; }
  }

  /** The decay when a share of the energy is spent on absorbing jitter. */
  function JitterDecay(w: real, share: real): real {
    Product(1.0 + share, Decay(w))
  }

  /** The energy that jitter can sustain. */
  function JitterEnergy(w: real, noise: real, share: real): real
    requires share > 0.0 && JitterDecay(w, share) < 1.0
  {
    Product(PushCost(w, share), Square(noise)) / (1.0 - JitterDecay(w, share))
  }

  predicate Absorbs(w: real, share: real) {
    share > 0.0 && JitterDecay(w, share) < 1.0
  }

  lemma JitterSigns(w: real, noise: real, share: real)
    requires Absorbs(w, share)
    ensures PushCost(w, share) >= 0.0 && JitterDecay(w, share) > 0.0 && JitterEnergy(w, noise, share) >= 0.0
  {
    hide Decay;
    DecayRange(w);
    PositiveProduct(1.0 + share, Decay(w), JitterDecay(w, share));
    PositiveQuotient(1.0, share);
    SquareSign(w);
    NonNegativeProduct(1.0 + 1.0 / share, w * w);
    SquareSign(noise);
    hide PushCost, JitterDecay, Square;
    ProductSign(PushCost(w, share), Square(noise));
    hide Product;
    NonNegativeQuotient(Product(PushCost(w, share), Square(noise)), 1.0 - JitterDecay(w, share));
  }

  lemma NonNegativeQuotient(x: real, d: real)
    requires x >= 0.0 && d > 0.0
    ensures x / d >= 0.0
  {
    var q := x / d;
    assert q * d == x;
    if q < 0.0 { PositiveProduct(-q, d, -x); }
  }

  lemma JitterBalance(w: real, noise: real, share: real)
    requires Absorbs(w, share)
    ensures Product(JitterDecay(w, share), JitterEnergy(w, noise, share)) + Product(PushCost(w, share), Square(noise))
            == JitterEnergy(w, noise, share)
  {
    QuotientBalance(JitterDecay(w, share), Product(PushCost(w, share), Square(noise)));
  }

  lemma QuotientBalance(f: real, x: real)
    requires f < 1.0
    ensures Product(f, x / (1.0 - f)) + x == x / (1.0 - f)
  {
    var y := x / (1.0 - f);
    assert y * (1.0 - f) == x;
  }

  lemma EnergyAfterJitter(o: Overbridge, w: real, frames: nat, period: real, time: real, next: real, share: real)
    requires !o.boot && Gains(o, w) && share > 0.0
    ensures LineEnergy(Arrive(o, frames, time), period, next)
            <= Product(JitterDecay(w, share), LineEnergy(o, period, time))
               + Product(PushCost(w, share), Square(next - time - period))
  {
    hide Energy, Arrive, Lateness, PushCost, Square, Product, Decay;
    var e, d, n := time - o.i1.time, period - o.dt, next - time - period;
    var e', d' := (e - Product(o.w1, e)) + d, d - Product(o.w2, e);
    ArrivalOnTime(o, frames, period, time, next);
    EnergyDecays(o.w1, o.w2, e, d);
    EnergyAfterPush(w, e', d', n, share);
    assert 1.0 - o.w1 + o.w2 == Decay(w) by { DecayOfGains(o, w); }
    Associative(1.0 + share, Decay(w), Energy(o.w1, o.w2, e, d));
  }

  lemma DecayOfGains(o: Overbridge, w: real)
    requires Gains(o, w)
    ensures 1.0 - o.w1 + o.w2 == Decay(w)
  {
    hide Square;
  }

  /** What is left of an energy v after n jittery arrivals, and what the jitter sustains. */
  function JitterBound(w: real, noise: real, share: real, n: nat, v: real): real
    requires Absorbs(w, share)
  {
    Left(JitterDecay(w, share), n, v) + JitterEnergy(w, noise, share)
  }

  lemma JitterBoundStart(w: real, noise: real, share: real, v: real)
    requires Absorbs(w, share)
    ensures v <= JitterBound(w, noise, share, 0, v)
  {
    JitterSigns(w, noise, share);
    LeftStart(JitterDecay(w, share), v);
    hide Left, JitterEnergy, JitterDecay;
  }

  lemma JitterBoundShrinks(w: real, noise: real, share: real, n: nat, v: real)
    requires Absorbs(w, share) && v >= 0.0
    ensures JitterBound(w, noise, share, n, v) <= v + JitterEnergy(w, noise, share)
  {
    JitterSigns(w, noise, share);
    LeftShrinks(JitterDecay(w, share), n, v);
    hide Left, JitterEnergy, JitterDecay;
  }

  lemma JitterBoundStep(o: Overbridge, w: real, frames: nat, period: real, time: real, next: real, noise: real,
                        share: real, n: nat, v: real)
    requires !o.boot && Gains(o, w) && Absorbs(w, share)
    requires -noise <= next - time - period <= noise
    requires LineEnergy(o, period, time) <= JitterBound(w, noise, share, n, v)
    ensures LineEnergy(Arrive(o, frames, time), period, next) <= JitterBound(w, noise, share, n + 1, v)
  {
    hide LineEnergy, Arrive, JitterEnergy, JitterDecay, PushCost, Square, Product, Left, Gains;
    var f, x := JitterDecay(w, share), next - time - period;
    EnergyAfterJitter(o, w, frames, period, time, next, share);
    JitterSigns(w, noise, share);
    ProductOrder(f, LineEnergy(o, period, time), JitterBound(w, noise, share, n, v));
    Distributive(f, Left(f, n, v), JitterEnergy(w, noise, share));
    LeftStep(f, n, v);
    SquareOrder(x, noise);
    ProductOrder(PushCost(w, share), Square(x), Square(noise));
    JitterBalance(w, noise, share);
  }

  lemma Distributive(a: real, b: real, c: real)
    ensures Product(a, b + c) == Product(a, b) + Product(a, c)
  {
  }

  /** The set of energies that the jitter sustains is kept by every arrival whose jitter is at most `noise`. */
  lemma JitterStep(o: Overbridge, w: real, frames: nat, period: real, time: real, next: real, noise: real, share: real)
    requires !o.boot && Gains(o, w) && Absorbs(w, share)
    requires -noise <= next - time - period <= noise
    requires LineEnergy(o, period, time) <= JitterEnergy(w, noise, share)
    ensures LineEnergy(Arrive(o, frames, time), period, next) <= JitterEnergy(w, noise, share)
  {
    hide LineEnergy, Arrive, JitterEnergy, JitterDecay, PushCost, Square, Gains;
    var f := JitterDecay(w, share);
    LeftOfNothing(f, 0);
    LeftOfNothing(f, 1);
    hide Left;
    JitterBoundStep(o, w, frames, period, time, next, noise, share, 0, 0.0);
  }

  lemma LeftOfNothing(q: real, n: nat)
    ensures Left(q, n, 0.0) == 0.0
  {
  }

  /** Bounded jitter gives bounded state: the energy set is kept by every arrival of every run. */
  lemma {:induction false} JitterRun(o: Overbridge, w: real, frames: nat, period: real, times: seq<real>, noise: real,
                                     share: real)
    requires !o.boot && Gains(o, w) && Absorbs(w, share)
    requires |times| > 0 && Jittery(times, period, noise)
    requires LineEnergy(o, period, times[0]) <= JitterEnergy(w, noise, share)
    ensures var line := ArriveAll(o, frames, times[..|times| - 1]);
            && !line.boot && Gains(line, w)
            && LineEnergy(line, period, times[|times| - 1]) <= JitterEnergy(w, noise, share)
  {
    hide Arrive, JitterEnergy, LineEnergy, JitterDecay, Gains;
    var n := |times|;
    if n == 1 {
      assert times[..0] == [];
    } else {
      var prefix := times[..n - 1];
      JitteryPrefix(times, period, noise);
      JitterRun(o, w, frames, period, prefix, noise, share);
      assert prefix[..n - 2] == times[..n - 2];
      var before := ArriveAll(o, frames, times[..n - 2]);
      assert ArriveAll(o, frames, prefix) == Arrive(before, frames, times[n - 2]);
      JitterStep(before, w, frames, period, times[n - 2], times[n - 1], noise, share);
      ArrivalKeepsGains(before, w, frames, times[n - 2]);
    }
  }

  /** And from wherever a jittery run starts the energy approaches that set geometrically. */
  lemma {:induction false} JitterAttracts(o: Overbridge, w: real, frames: nat, period: real, times: seq<real>,
                                          noise: real, share: real)
    requires !o.boot && Gains(o, w) && Absorbs(w, share)
    requires |times| > 0 && Jittery(times, period, noise)
    ensures var line := ArriveAll(o, frames, times[..|times| - 1]);
            && !line.boot && Gains(line, w)
            && LineEnergy(line, period, times[|times| - 1])
               <= JitterBound(w, noise, share, |times| - 1, LineEnergy(o, period, times[0]))
  {
    hide Arrive, LineEnergy, JitterBound, Absorbs, Gains;
    var n := |times|;
    if n == 1 {
      assert times[..0] == [];
      JitterBoundStart(w, noise, share, LineEnergy(o, period, times[0]));
    } else {
      var prefix := times[..n - 1];
      JitteryPrefix(times, period, noise);
      JitterAttracts(o, w, frames, period, prefix, noise, share);
      assert prefix[..n - 2] == times[..n - 2];
      var before := ArriveAll(o, frames, times[..n - 2]);
      assert ArriveAll(o, frames, prefix) == Arrive(before, frames, times[n - 2]);
      JitterBoundStep(before, w, frames, period, times[n - 2], times[n - 1], noise, share, n - 2,
                      LineEnergy(o, period, times[0]));
      ArrivalKeepsGains(before, w, frames, times[n - 2]);
    }
  }

  lemma {:induction false} BootingIsArriving(o: Overbridge, frames: nat, times: seq<real>)
    requires o.boot && |times| > 0
    ensures ArriveAll(o, frames, times) == ArriveAll(Booted(o, frames, times[0]), frames, times)
  {
    hide Product;
    if |times| == 1 {
      assert times[..0] == [];
    } else {
      BootingIsArriving(o, frames, times[..|times| - 1]);
      hide Arrive;
    }
  }

  /** From boot it approaches it too: the last of some arrivals finds what they have left of the boot energy,
      and what the jitter sustains. */
  lemma JitterFromBoot(o: Overbridge, w: real, frames: nat, period: real, times: seq<real>, noise: real, share: real)
    requires o.boot && Gains(o, w) && Absorbs(w, share)
    requires |times| > 0 && Jittery(times, period, noise)
    ensures LineEnergy(Found(o, frames, times), period, times[|times| - 1])
            <= JitterBound(w, noise, share, |times| - 1, BootEnergy(o, period))
  {
    hide ArriveAll, Arrive, LineEnergy, BootEnergy, JitterBound, Absorbs, Gains;
    var booted := Booted(o, frames, times[0]);
    BootLine(o, w, frames, period, times[0]);
    if |times| == 1 {
      JitterBoundStart(w, noise, share, BootEnergy(o, period));
    } else {
      BootingIsArriving(o, frames, times[..|times| - 1]);
      JitterAttracts(booted, w, frames, period, times, noise, share);
    }
  }

  /** All the energy that a jittery run from boot can ever find. */
  function Reserve(o: Overbridge, w: real, period: real, noise: real, share: real): real
    requires Absorbs(w, share)
  {
    BootEnergy(o, period) + JitterEnergy(w, noise, share)
  }

  lemma EnergyStaysInReserve(o: Overbridge, w: real, frames: nat, period: real, times: seq<real>, noise: real,
                             share: real)
    requires o.boot && Gains(o, w) && Absorbs(w, share)
    requires |times| > 0 && Jittery(times, period, noise)
    ensures LineEnergy(Found(o, frames, times), period, times[|times| - 1]) <= Reserve(o, w, period, noise, share)
  {
    hide LineEnergy, BootEnergy, JitterBound, JitterEnergy, Found, Jittery, Gains, Absorbs;
    JitterFromBoot(o, w, frames, period, times, noise, share);
    BootEnergyIsNotNegative(o, w, period);
    JitterBoundShrinks(w, noise, share, |times| - 1, BootEnergy(o, period));
  }

  /** So after every arrival of a jittery run the span is off the period by at most c, when that energy is at
      most 0.36 c^2. */
  lemma SpanOnJitteryClock(o: Overbridge, w: real, frames: nat, period: real, times: seq<real>, noise: real,
                           share: real, c: real)
    requires o.boot && Gains(o, w) && Absorbs(w, share) && c >= 0.0
    requires |times| > 0 && Jittery(times, period, noise) && Reserve(o, w, period, noise, share) <= 0.36 * Square(c)
    ensures var line := ArriveAll(o, frames, times); period - c <= line.i1.time - line.i0.time <= period + c
  {
    hide Arrive, ArriveAll, LineEnergy, Reserve, Square, Found, Jittery, Gains, Absorbs;
    EnergyStaysInReserve(o, w, frames, period, times, noise, share);
    FoundThenArrived(o, w, frames, times);
    SpanNearPeriod(Found(o, frames, times), w, frames, period, times[|times| - 1], c);
  }

  /** And the filtered period stays near the true one, and gets nearer with every arrival. */
  lemma PeriodOnJitteryClock(o: Overbridge, w: real, frames: nat, period: real, times: seq<real>, noise: real,
                             share: real)
    requires o.boot && Gains(o, w) && Absorbs(w, share) && noise >= 0.0
    requires |times| > 0 && Jittery(times, period, noise)
    ensures 0.36 * Square(period - ArriveAll(o, frames, times).dt)
            <= JitterBound(w, noise, share, |times|, BootEnergy(o, period))
  {
    hide Arrive, ArriveAll, LineEnergy, BootEnergy, JitterBound, Square, Found, Jittery, Gains, Absorbs;
    var last := times[|times| - 1];
    JitterFromBoot(o, w, frames, period, times, noise, share);
    FoundThenArrived(o, w, frames, times);
    var before := Found(o, frames, times);
    JitterBoundStep(before, w, frames, period, last, last + period, noise, share, |times| - 1, BootEnergy(o, period));
    ArrivalKeepsGains(before, w, frames, last);
    PeriodNear(ArriveAll(o, frames, times), w, period, last + period);
  }
}
