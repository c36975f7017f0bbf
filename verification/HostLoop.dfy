/** What the host's filter does to the errors it hears, and what its gains mean: the stages as sums over the
    errors, the direction in which the ratio answers, and the damping and bandwidth of the loop. */
module HostLoop {
  import opened Words
  import opened Reals
  import opened Dll
  import DllRefinement

  // ----- The stages are sums over the errors -----

  /** The loop after cycles with these errors. */
  function Filtered(h: Host, errors: seq<real>): Host {
    if errors == [] then h
    else HostUpdate(Filtered(h, errors[..|errors| - 1]).(err := errors[|errors| - 1]))
  }

  /** What the first stage keeps of an error that it heard `age` cycles before the latest one. */
  function FirstWeight(w: real, age: nat): real {
    w * Pow(1.0 - w, age)
  }

  /** And the second, which hears the first: as many times w as there are cycles for it to have passed on. */
  function SecondWeight(w: real, age: nat): real {
    (age + 1) as real * w * w * Pow(1.0 - w, age)
  }

  /** The weighted sum of errors, of which the latest is `age` cycles old. */
  function FirstSum(w: real, errors: seq<real>, age: nat): real {
    if errors == [] then 0.0
    else Product(FirstWeight(w, age), errors[|errors| - 1]) + FirstSum(w, errors[..|errors| - 1], age + 1)
  }

  function SecondSum(w: real, errors: seq<real>, age: nat): real {
    if errors == [] then 0.0
    else Product(SecondWeight(w, age), errors[|errors| - 1]) + SecondSum(w, errors[..|errors| - 1], age + 1)
  }

  /** The second stage after each cycle, summed up. */
  function SecondTotal(h: Host, errors: seq<real>): real {
    if errors == [] then 0.0
    else SecondTotal(h, errors[..|errors| - 1]) + SecondStage(h, errors)
  }

  /** The first stage: what is left of what it held, and the weighted errors, by the first gain. */
  function FirstStage(h: Host, errors: seq<real>): real {
    Product(Pow(1.0 - h.w0, |errors|), h.z1) + Product(h.w1, FirstSum(h.w0, errors, 0))
  }

  /** What the first stage has passed on in n cycles of what it held. */
  function PassedOn(w: real, held: real, n: nat): real {
    n as real * w * held
  }

  /** The second stage also has what the first one has passed on to it. */
  function SecondStage(h: Host, errors: seq<real>): real {
    Product(Pow(1.0 - h.w0, |errors|), h.z2 + PassedOn(h.w0, h.z1, |errors|))
    + Product(h.w1, SecondSum(h.w0, errors, 0))
  }

  /** The weights of errors that get one cycle older. */
  lemma WeightsAge(w: real, age: nat)
    ensures FirstWeight(w, age + 1) == Product(1.0 - w, FirstWeight(w, age))
    ensures SecondWeight(w, age + 1) == Product(1.0 - w, SecondWeight(w, age) + Product(w, FirstWeight(w, age)))
  {
    var p, a := Pow(1.0 - w, age), age as real;
    assert Pow(1.0 - w, age + 1) == (1.0 - w) * p;
    assert (a + 2.0) * w * w * ((1.0 - w) * p) == (1.0 - w) * ((a + 1.0) * w * w * p + w * (w * p));
  }

  lemma ProductAge(k: real, a: real, b: real, w: real, e: real)
    ensures Product(Product(k, a), e) == Product(k, Product(a, e))
    ensures Product(Product(k, a + Product(w, b)), e) == Product(k, Product(a, e) + Product(w, Product(b, e)))
  {
  }

  lemma ProductSum(k: real, x: real, y: real)
    ensures Product(k, x) + Product(k, y) == Product(k, x + y)
  {
  }

  lemma {:induction false} SumsAge(w: real, errors: seq<real>, age: nat)
    ensures FirstSum(w, errors, age + 1) == Product(1.0 - w, FirstSum(w, errors, age))
    ensures SecondSum(w, errors, age + 1)
            == Product(1.0 - w, SecondSum(w, errors, age) + Product(w, FirstSum(w, errors, age)))
  {
    if errors == [] {
      assert Product(w, 0.0) == 0.0 && Product(1.0 - w, 0.0) == 0.0;
    } else {
      var before, e, k := errors[..|errors| - 1], errors[|errors| - 1], 1.0 - w;
      SumsAge(w, before, age + 1);
      WeightsAge(w, age);
      var a, b := FirstWeight(w, age), SecondWeight(w, age);
      ProductAge(k, a, 0.0, w, e);
      ProductAge(k, b, a, w, e);
      hide Product, FirstWeight, SecondWeight;
      ProductSum(k, Product(a, e), FirstSum(w, before, age + 1));
      ProductSum(w, Product(a, e), FirstSum(w, before, age + 1));
      ProductSum(k, Product(b, e) + Product(w, Product(a, e)),
                 SecondSum(w, before, age + 1) + Product(w, FirstSum(w, before, age + 1)));
    }
  }

  /** One step of the first stage, given what it held after earlier cycles. */
  lemma FirstStep(w: real, p: real, z: real, w1: real, sum: real, e: real)
    ensures Toward(Product(p, z) + Product(w1, sum), w, Product(w1, e))
            == Product(Product(1.0 - w, p), z) + Product(w1, Product(w, e) + Product(1.0 - w, sum))
  {
  }

  lemma SecondStep(w: real, p: real, n: nat, z1: real, z2: real, w1: real, first: real, sum: real)
    ensures Toward(Product(p, z2 + PassedOn(w, z1, n)) + Product(w1, sum), w,
                   Product(Product(1.0 - w, p), z1) + Product(w1, first))
            == Product(Product(1.0 - w, p), z2 + PassedOn(w, z1, n + 1))
               + Product(w1, Product(w, first) + Product(1.0 - w, sum))
  {
    var q, m := (1.0 - w) * p, n as real;
    assert PassedOn(w, z1, n) == m * w * z1 && PassedOn(w, z1, n + 1) == (m + 1.0) * w * z1;
    hide PassedOn;
    assert (1.0 - w) * (p * (z2 + m * w * z1)) + w * (q * z1) == q * (z2 + (m + 1.0) * w * z1);
    assert (1.0 - w) * (w1 * sum) + w * (w1 * first) == w1 * (w * first + (1.0 - w) * sum);
  }

  /** The sums after one more error. */
  lemma SumsGrow(w: real, errors: seq<real>)
    requires errors != []
    ensures var before, e := errors[..|errors| - 1], errors[|errors| - 1];
            && FirstSum(w, errors, 0) == Product(w, e) + Product(1.0 - w, FirstSum(w, before, 0))
            && SecondSum(w, errors, 0)
               == Product(w, FirstSum(w, errors, 0)) + Product(1.0 - w, SecondSum(w, before, 0))
  {
    var before, e := errors[..|errors| - 1], errors[|errors| - 1];
    SumsAge(w, before, 0);
    assert FirstWeight(w, 0) == w && SecondWeight(w, 0) == w * w;
    Nested(w, e, FirstSum(w, before, 0));
    ProductSum(1.0 - w, SecondSum(w, before, 0), Product(w, FirstSum(w, before, 0)));
    hide Product;
  }

  lemma Nested(w: real, e: real, sum: real)
    ensures Product(w * w, e) + Product(1.0 - w, Product(w, sum)) == Product(w, Product(w, e) + Product(1.0 - w, sum))
  {
  }

  /** The ratio is what the last two stages leave of 1, within its limits. */
  predicate Answers(h: Host) {
    var free := 1.0 - h.z2 - h.z3;
    && (h.minRatio <= free <= h.maxRatio ==> h.ratio + h.z2 + h.z3 == 1.0)
    && (free > h.maxRatio ==> h.ratio == h.maxRatio)
    && (free < h.minRatio <= h.maxRatio ==> h.ratio == h.minRatio)
  }

  lemma OneCycle(b: Host, e: real)
    ensures var n := HostUpdate(b.(err := e));
            && n.z1 == Toward(b.z1, b.w0, Product(b.w1, e)) && n.z2 == Toward(b.z2, b.w0, n.z1)
            && n.z3 == b.z3 + Product(b.w2, n.z2) && Answers(n)
            && n == b.(z1 := n.z1, z2 := n.z2, z3 := n.z3, ratio := n.ratio, err := e)
  {
    hide Toward, Product;
  }

  /** Whatever the errors: the first two stages are weighted sums of them, the third is the sum of what the second
      has held, and the ratio answers the last two. */
  lemma {:induction false} StagesAreSums(h: Host, errors: seq<real>)
    ensures var n := Filtered(h, errors);
            && n.z1 == FirstStage(h, errors) && n.z2 == SecondStage(h, errors)
            && n.z3 == h.z3 + Product(h.w2, SecondTotal(h, errors))
            && (errors != [] ==> Answers(n))
            && n == h.(z1 := n.z1, z2 := n.z2, z3 := n.z3, ratio := n.ratio, err := n.err)
  {
    if errors == [] {
      NoErrors(h);
    } else {
      var before, e, m := errors[..|errors| - 1], errors[|errors| - 1], |errors| - 1;
      StagesAreSums(h, before);
      OneCycle(Filtered(h, before), e);
      hide HostUpdate, Answers;
      FirstStageGrows(h, errors);
      SecondStageGrows(h, errors);
      hide FirstStage, SecondStage, Toward;
      ProductSum(h.w2, SecondTotal(h, before), SecondStage(h, errors));
      hide Product;
    }
  }

  lemma OneMorePower(x: real, n: nat)
    ensures Pow(x, n + 1) == Product(x, Pow(x, n))
  {
  }

  lemma FirstStageGrows(h: Host, errors: seq<real>)
    requires errors != []
    ensures var before, e := errors[..|errors| - 1], errors[|errors| - 1];
            Toward(FirstStage(h, before), h.w0, Product(h.w1, e)) == FirstStage(h, errors)
  {
    hide FirstSum, SecondSum, Toward, Pow, Product;
    var before, e := errors[..|errors| - 1], errors[|errors| - 1];
    SumsGrow(h.w0, errors);
    OneMorePower(1.0 - h.w0, |before|);
    FirstStep(h.w0, Pow(1.0 - h.w0, |before|), h.z1, h.w1, FirstSum(h.w0, before, 0), e);
  }

  lemma SecondStageGrows(h: Host, errors: seq<real>)
    requires errors != []
    ensures Toward(SecondStage(h, errors[..|errors| - 1]), h.w0, FirstStage(h, errors)) == SecondStage(h, errors)
  {
    hide FirstSum, SecondSum, Toward, Pow, Product, PassedOn;
    var before := errors[..|errors| - 1];
    SumsGrow(h.w0, errors);
    OneMorePower(1.0 - h.w0, |before|);
    SecondStep(h.w0, Pow(1.0 - h.w0, |before|), |before|, h.z1, h.z2, h.w1, FirstSum(h.w0, errors, 0),
               SecondSum(h.w0, before, 0));
  }

  lemma NoErrors(h: Host)
    ensures FirstStage(h, []) == h.z1 && SecondStage(h, []) == h.z2 && Product(h.w2, SecondTotal(h, [])) == 0.0
  {
    assert Product(h.w1, 0.0) == 0.0 && Pow(1.0 - h.w0, 0) == 1.0 && PassedOn(h.w0, h.z1, 0) == 0.0;
  }

  /** The filter moves nothing but its stages and the ratio. */
  predicate SameLoop(n: Host, h: Host) {
    && n.w0 == h.w0 && n.w1 == h.w1 && n.w2 == h.w2
    && n.minRatio == h.minRatio && n.maxRatio == h.maxRatio
  }

  lemma KeepsLoop(h: Host, errors: seq<real>)
    ensures SameLoop(Filtered(h, errors), h) && (errors != [] ==> Answers(Filtered(h, errors)))
  {
    StagesAreSums(h, errors);
    hide Filtered, FirstStage, SecondStage, SecondTotal, Product, Answers;
  }

  // ----- The direction of the answer -----

  predicate Cleared(h: Host) {
    h.z1 == 0.0 && h.z2 == 0.0 && h.z3 == 0.0
  }

  predicate Working(h: Host) {
    0.0 < h.w0 <= 1.0 && h.w1 > 0.0 && h.w2 >= 0.0
  }

  /** The filter's own ratio, before it is clamped. */
  function Free(h: Host): real {
    1.0 - h.z2 - h.z3
  }

  predicate AllPositive(errors: seq<real>) {
    forall k :: 0 <= k < |errors| ==> errors[k] > 0.0
  }

  predicate NeverFalls(errors: seq<real>) {
    forall k :: 0 < k < |errors| ==> errors[k - 1] <= errors[k]
  }

  lemma TowardTarget(z: real, w: real, target: real)
    requires 0.0 < w <= 1.0
    ensures z >= 0.0 && target > 0.0 ==> Toward(z, w, target) > 0.0
    ensures z <= target ==> z <= Toward(z, w, target) <= target
  {
    if z <= target {
      NonNegativeProduct(w, target - z);
      NonNegativeProduct(1.0 - w, target - z);
      assert target - Toward(z, w, target) == (1.0 - w) * (target - z);
    }
    if z >= 0.0 && target > 0.0 {
      PositiveProduct(w, target, w * target);
      NonNegativeProduct(1.0 - w, z);
      assert Toward(z, w, target) == (1.0 - w) * z + w * target;
    }
  }

  lemma SignOfProduct(a: real, b: real)
    requires a >= 0.0 && b > 0.0
    ensures Product(a, b) >= 0.0 && (a > 0.0 ==> Product(a, b) > 0.0)
  {
    NonNegativeProduct(a, b);
    if a > 0.0 { PositiveProduct(a, b, a * b); }
  }

  /** Too many frames waiting: the ratio is below 1 from the first cycle on. */
  lemma {:induction false} PositiveErrorsLowerRatio(h: Host, errors: seq<real>)
    requires Cleared(h) && Working(h) && AllPositive(errors)
    ensures var n := Filtered(h, errors);
            if errors == [] then Cleared(n) else n.z1 > 0.0 && n.z2 > 0.0 && n.z3 >= 0.0 && Free(n) < 1.0
    ensures var n := Filtered(h, errors); n.w0 == h.w0 && n.w1 == h.w1 && n.w2 == h.w2
  {
    hide HostUpdate, Toward, Product, Answers;
    if errors != [] {
      var before, e := errors[..|errors| - 1], errors[|errors| - 1];
      PositiveErrorsLowerRatio(h, before);
      var b := Filtered(h, before);
      var n := HostUpdate(b.(err := e));
      OneCycle(b, e);
      SignOfProduct(h.w1, e);
      TowardTarget(b.z1, b.w0, Product(b.w1, e));
      TowardTarget(b.z2, b.w0, n.z1);
      SignOfProduct(b.w2, n.z2);
    }
  }

  lemma LargerProduct(w: real, a: real, b: real)
    requires w >= 0.0 && a <= b
    ensures Product(w, a) <= Product(w, b)
  {
    NonNegativeProduct(w, b - a);
  }

  lemma RatiosInOrder(n: Host, b: Host)
    requires n.minRatio == b.minRatio <= b.maxRatio == n.maxRatio && Answers(n) && Answers(b) && Free(n) <= Free(b)
    ensures n.ratio <= b.ratio
  {
  }

  /** One more error that is not below what the stages have been told. */
  lemma OneMoreError(b: Host, e: real)
    requires Working(b) && 0.0 <= b.z2 <= b.z1 <= Product(b.w1, e)
    ensures var n := HostUpdate(b.(err := e));
            b.z2 <= n.z2 <= n.z1 <= Product(b.w1, e) && b.z3 <= n.z3 && Free(n) <= Free(b) && Answers(n)
  {
    OneCycle(b, e);
    var n := HostUpdate(b.(err := e));
    TowardTarget(b.z1, b.w0, Product(b.w1, e));
    TowardTarget(b.z2, b.w0, n.z1);
    LargerProduct(b.w2, 0.0, n.z2);
    assert Product(b.w2, 0.0) == 0.0;
    hide HostUpdate, Toward, Product, Answers;
  }

  /** And as long as the error does not fall the ratio does not rise. */
  lemma {:induction false} RatioNeverRises(h: Host, errors: seq<real>)
    requires Cleared(h) && Working(h) && AllPositive(errors) && NeverFalls(errors) && errors != []
    ensures var n, b := Filtered(h, errors), Filtered(h, errors[..|errors| - 1]);
            && 0.0 <= b.z2 <= n.z2 <= n.z1 <= Product(h.w1, errors[|errors| - 1]) && b.z3 <= n.z3
            && Free(n) <= Free(b) && Answers(n)
            && (|errors| > 1 && h.minRatio <= h.maxRatio ==> n.ratio <= b.ratio)
  {
    var before, e := errors[..|errors| - 1], errors[|errors| - 1];
    KeepsLoop(h, before);
    KeepsLoop(h, errors);
    var b := Filtered(h, before);
    if before == [] {
      LargerProduct(h.w1, 0.0, e);
      assert Product(h.w1, 0.0) == 0.0;
    } else {
      RatioNeverRises(h, before);
      LargerProduct(h.w1, before[|before| - 1], e);
    }
    hide Product, HostUpdate, Answers;
    OneMoreError(b, e);
    if before != [] && h.minRatio <= h.maxRatio { RatiosInOrder(Filtered(h, errors), b); }
  }

  /** The stages that hear the opposite errors hold the opposite. */
  lemma {:induction false} Mirrored(h: Host, g: Host, errors: seq<real>, opposite: seq<real>)
    requires g.w0 == h.w0 && g.w1 == h.w1 && g.w2 == h.w2 && g.z1 == -h.z1 && g.z2 == -h.z2 && g.z3 == -h.z3
    requires |opposite| == |errors| && forall k :: 0 <= k < |errors| ==> opposite[k] == -errors[k]
    ensures var n, m := Filtered(h, errors), Filtered(g, opposite);
            && m.w0 == n.w0 && m.w1 == n.w1 && m.w2 == n.w2 && m.z1 == -n.z1 && m.z2 == -n.z2 && m.z3 == -n.z3
  {
    if errors != [] {
      var before, was := errors[..|errors| - 1], opposite[..|errors| - 1];
      Mirrored(h, g, before, was);
      var n, m := Filtered(h, before), Filtered(g, was);
      OneCycle(n, errors[|errors| - 1]);
      OneCycle(m, opposite[|errors| - 1]);
      OppositeStep(n, m, errors[|errors| - 1]);
      hide HostUpdate, Toward, Product, Answers;
    }
  }

  lemma OppositeStep(n: Host, m: Host, e: real)
    requires m.w0 == n.w0 && m.w1 == n.w1 && m.w2 == n.w2 && m.z1 == -n.z1 && m.z2 == -n.z2 && m.z3 == -n.z3
    ensures var z1 := Toward(n.z1, n.w0, Product(n.w1, e));
            var z2 := Toward(n.z2, n.w0, z1);
            && Toward(m.z1, m.w0, Product(m.w1, -e)) == -z1 && Toward(m.z2, m.w0, -z1) == -z2
            && Product(m.w2, -z2) == -Product(n.w2, z2)
  {
  }

  function Opposite(errors: seq<real>): seq<real> {
    seq(|errors|, k requires 0 <= k < |errors| => -errors[k])
  }

  lemma OppositeOf(h: Host, errors: seq<real>)
    requires Cleared(h)
    ensures var n, m := Filtered(h, errors), Filtered(h, Opposite(errors));
            m.z1 == -n.z1 && m.z2 == -n.z2 && m.z3 == -n.z3
  {
    Mirrored(h, h, errors, Opposite(errors));
  }

  lemma OppositeOfPart(errors: seq<real>)
    requires errors != []
    ensures |Opposite(errors)| == |errors| && Opposite(errors)[..|errors| - 1] == Opposite(errors[..|errors| - 1])
  {
  }

  /** Too few frames waiting: the ratio is above 1... */
  lemma NegativeErrorsRaiseRatio(h: Host, errors: seq<real>)
    requires Cleared(h) && Working(h) && AllPositive(Opposite(errors)) && errors != []
    ensures Free(Filtered(h, errors)) > 1.0
  {
    OppositeOfPart(errors);
    hide Filtered, AllPositive, Opposite;
    OppositeOf(h, errors);
    PositiveErrorsLowerRatio(h, Opposite(errors));
  }

  /** ...and does not fall as long as the error does not rise. */
  lemma RatioNeverFalls(h: Host, errors: seq<real>)
    requires Cleared(h) && Working(h) && AllPositive(Opposite(errors)) && NeverFalls(Opposite(errors)) && errors != []
    ensures var n, b := Filtered(h, errors), Filtered(h, errors[..|errors| - 1]);
            && Free(n) >= Free(b)
            && (|errors| > 1 && h.minRatio <= h.maxRatio ==> n.ratio >= b.ratio)
  {
    var before := errors[..|errors| - 1];
    OppositeOfPart(errors);
    hide Filtered, AllPositive, NeverFalls, Opposite, Answers, Product;
    OppositeOf(h, errors);
    OppositeOf(h, before);
    RatioNeverRises(h, Opposite(errors));
    if |errors| > 1 && h.minRatio <= h.maxRatio {
      KeepsLoop(h, errors);
      KeepsLoop(h, before);
      RatiosInOrder(Filtered(h, before), Filtered(h, errors));
    }
  }

  // ----- An error that lasts -----

  function Constant(e: real, n: nat): (errors: seq<real>)
    ensures |errors| == n && forall k :: 0 <= k < n ==> errors[k] == e
  {
    seq(n, _ => e)
  }

  function Lasting(h: Host, e: real, n: nat): Host {
    Filtered(h, Constant(e, n))
  }

  /** One cycle more of it. */
  lemma LastingStep(h: Host, e: real, n: nat)
    requires Cleared(h) && Working(h) && e > 0.0
    ensures Lasting(h, e, 0) == h && SameLoop(Lasting(h, e, n), h)
    ensures var b, m := Lasting(h, e, n), Lasting(h, e, n + 1);
            && 0.0 <= b.z2 <= m.z2 && m.z2 > 0.0 && m.z3 == b.z3 + Product(h.w2, m.z2) && Answers(m)
  {
    var errors := Constant(e, n + 1);
    assert errors[..n] == Constant(e, n);
    RatioNeverRises(h, errors);
    PositiveErrorsLowerRatio(h, errors);
    KeepsLoop(h, Constant(e, n));
    OneCycle(Filtered(h, Constant(e, n)), e);
    hide HostUpdate, Toward, Product, Answers, Constant;
  }

  /** The third stage gains at least this much with every cycle. */
  lemma {:induction false} ThirdStageGrows(h: Host, e: real, n: nat)
    requires Cleared(h) && Working(h) && e > 0.0 && n > 0
    ensures var first := Lasting(h, e, 1).z2;
            first > 0.0 && Lasting(h, e, n).z2 >= first && Lasting(h, e, n).z3 >= Product(h.w2, first) * n as real
  {
    hide Lasting, Product;
    LastingStep(h, e, n - 1);
    LastingStep(h, e, 0);
    if n > 1 {
      ThirdStageGrows(h, e, n - 1);
      LargerProduct(h.w2, Lasting(h, e, 1).z2, Lasting(h, e, n).z2);
      assert Product(h.w2, Lasting(h, e, 1).z2) * n as real
             == Product(h.w2, Lasting(h, e, 1).z2) * (n - 1) as real + Product(h.w2, Lasting(h, e, 1).z2);
    }
  }

  lemma AnsweredInFull(h: Host, e: real, gain: real, m: nat)
    requires Cleared(h) && Working(h) && e > 0.0 && h.minRatio <= h.maxRatio
    requires m > 0 && gain == Product(h.w2, Lasting(h, e, 1).z2) && gain * m as real >= 1.0 - h.minRatio
    ensures Lasting(h, e, m).ratio == h.minRatio
  {
    hide Lasting, Product;
    ThirdStageGrows(h, e, m);
    LastingStep(h, e, m - 1);
    LastingStep(h, e, m);
  }

  /** So it is answered in full: from some cycle on the ratio is the least that the clamp allows. */
  lemma LastingErrorIsClamped(h: Host, e: real) returns (n: nat)
    requires Cleared(h) && Working(h) && e > 0.0 && h.w2 > 0.0 && h.minRatio <= h.maxRatio
    ensures forall m: nat :: m >= n ==> Lasting(h, e, m).ratio == h.minRatio
  {
    ThirdStageGrows(h, e, 1);
    var gain := Product(h.w2, Lasting(h, e, 1).z2);
    PositiveProduct(h.w2, Lasting(h, e, 1).z2, gain);
    hide Lasting, Product;
    n := Enough(gain, 1.0 - h.minRatio);
    forall m: nat | m >= n
      ensures Lasting(h, e, m).ratio == h.minRatio
    {
      Exceeds(gain, n, m);
      AnsweredInFull(h, e, gain, m);
    }
  }

  lemma Enough(gain: real, want: real) returns (n: nat)
    requires gain > 0.0
    ensures n > 0 && gain * n as real >= want
  {
    var need := want / gain;
    assert need * gain == want;
    n := if need < 1.0 then 1 else need.Floor + 1;
    NonNegativeProduct(gain, n as real - need);
  }

  lemma Exceeds(gain: real, n: nat, m: nat)
    requires gain > 0.0 && m >= n
    ensures gain * m as real >= gain * n as real
  {
    NonNegativeProduct(gain, m as real - n as real);
  }

  // ----- In a run of the loop -----

  /** The errors that the filter hears along a run. */
  function Heard(s: DllRefinement.Loop, frames: uint32, events: seq<DllRefinement.Event>): seq<real> {
    if events == [] then []
    else
      var before, e := events[..|events| - 1], events[|events| - 1];
      Heard(s, frames, before)
      + if e.Cycle? && e.filtered then
          [HostUpdateError(LoadOverbridge(DllRefinement.Run(s, frames, before).h,
                                          DllRefinement.Run(s, frames, before).o), e.t, e.undefined).err]
        else []
  }

  /** Neither the filter's gains nor its stages are set. */
  predicate OnePhase(events: seq<DllRefinement.Event>) {
    forall k :: 0 <= k < |events| ==> !events[k].Filter? && !events[k].Reset?
  }

  predicate SameStages(n: Host, f: Host) {
    n.z1 == f.z1 && n.z2 == f.z2 && n.z3 == f.z3 && n.ratio == f.ratio && SameLoop(n, f)
  }

  lemma SameAnswer(n: Host, f: Host)
    requires SameStages(n, f)
    ensures SameStages(HostUpdate(n), HostUpdate(f.(err := n.err)))
  {
    hide Product, Toward;
  }

  lemma MeasuringKeepsStages(h: Host, o: Overbridge, t: nat, undefined: real)
    ensures SameStages(HostUpdateError(LoadOverbridge(h, o), t, undefined), h)
  {
    hide RawError;
  }

  lemma LastError(h: Host, errors: seq<real>, e: real)
    ensures Filtered(h, errors + [e]) == HostUpdate(Filtered(h, errors).(err := e))
  {
    assert (errors + [e])[..|errors|] == errors;
    hide HostUpdate;
  }

  /** So between two changes of the filter the stages and the ratio are those sums over the errors measured since,
      with any arrivals and reads between the cycles. */
  lemma {:induction false} LoopAnswersErrors(s: DllRefinement.Loop, frames: uint32, events: seq<DllRefinement.Event>)
    requires OnePhase(events)
    ensures SameStages(DllRefinement.Run(s, frames, events).h, Filtered(s.h, Heard(s, frames, events)))
  {
    if events != [] {
      var before, e := events[..|events| - 1], events[|events| - 1];
      LoopAnswersErrors(s, frames, before);
      var b, errors := DllRefinement.Run(s, frames, before), Heard(s, frames, before);
      assert errors + [] == errors;
      if e.Cycle? {
        MeasuringKeepsStages(b.h, b.o, e.t, e.undefined);
        var m := HostUpdateError(LoadOverbridge(b.h, b.o), e.t, e.undefined);
        SameAnswer(m, Filtered(s.h, errors));
        LastError(s.h, errors, m.err);
        hide HostUpdateError, HostUpdate, Filtered, SameLoop;
      } else {
        hide HostUpdateError, HostUpdate, Filtered, OverbridgeInit, OverbridgeUpdate;
        assert DllRefinement.Step(b, frames, e).h == b.h.(frames := DllRefinement.Step(b, frames, e).h.frames);
      }
    }
  }

  // ----- What the gains mean -----

  /** A loop of second order over cycles of n frames: damped by 0.8, with a natural frequency of `omega` per cycle.
      Per cycle the first gain moves the error by w1 n of itself, and the second adds w2 of that. */
  predicate Tracks(h: Host, n: nat, omega: real) {
    && h.w1 > 0.0 && h.w2 > 0.0
    && Square(h.w1 * n as real) == 4.0 * Square(0.8) * (h.w1 * h.w2 * n as real)
    && h.w1 * h.w2 * n as real == Square(omega)
  }

  /** The radians that a bandwidth in Hz makes in a cycle of n frames, on the device's clock. */
  function Omega(bw: real, ratio: real, n: nat, rate: real): real
    requires rate != 0.0
  {
    2.0 * PI * bw * ratio * n as real / rate
  }

  /** The gains that the host sets are of that kind, whatever the bandwidth, the ratio and the cycle are... */
  lemma FilterTracks(h: Host, bw: real, n: nat, rate: real, decay: real)
    requires n > 0 && bw > 0.0 && h.ratio > 0.0 && rate > 0.0
    ensures Tracks(HostSetLoopFilter(h, bw, n, rate, decay), n, Omega(bw, h.ratio, n, rate))
  {
    var w, f := 2.0 * PI * bw * h.ratio / rate, n as real;
    PositiveProduct(bw, h.ratio, bw * h.ratio);
    assert 2.0 * PI * bw * h.ratio == 2.0 * PI * (bw * h.ratio);
    PositiveQuotient(2.0 * PI * bw * h.ratio, rate);
    PositiveProduct(w, f, w * f);
    ScaledQuotient(2.0 * PI * bw * h.ratio, f, rate);
    var g := HostSetLoopFilter(h, bw, n, rate, decay);
    assert g.w1 == w * 1.6 && g.w2 == w * f / 1.6;
    hide HostSetLoopFilter;
    GainProducts(g.w1, g.w2, w, f);
  }

  lemma GainProducts(w1: real, w2: real, w: real, f: real)
    requires w1 == w * 1.6 && w2 == w * f / 1.6
    ensures w1 * w2 * f == Square(w * f) && Square(w1 * f) == 2.56 * Square(w * f)
  {
    assert w1 * w2 == w * (w * f);
  }

  lemma ScaledQuotient(x: real, f: real, d: real)
    requires d != 0.0
    ensures x * f / d == x / d * f
  {
    var q := x / d;
    assert q * d == x;
    assert (q * f) * d == x * f;
  }

  /** ...and no others are: damping and frequency determine both. */
  lemma GainsAreDetermined(h: Host, g: Host, n: nat, omega: real)
    requires n > 0 && Tracks(h, n, omega) && Tracks(g, n, omega)
    ensures g.w1 == h.w1 && g.w2 == h.w2
  {
    var f := n as real;
    SameSquare(h.w1 * f, g.w1 * f);
    PositiveProduct(h.w1, f, h.w1 * f);
    PositiveProduct(g.w1, f, g.w1 * f);
    SameFactor(f, h.w1, g.w1);
    SameFactor(h.w1 * f, h.w2, g.w2);
  }

  lemma SameSquare(a: real, b: real)
    requires Square(a) == Square(b)
    ensures a > 0.0 && b > 0.0 ==> a == b
  {
    if a > 0.0 && b > 0.0 && a != b {
      assert (a - b) * (a + b) == 0.0;
      if a > b { PositiveProduct(a - b, a + b, 0.0); } else { PositiveProduct(b - a, a + b, 0.0); }
    }
  }

  lemma SameFactor(f: real, a: real, b: real)
    requires f > 0.0 && f * a == f * b
    ensures a == b
  {
    assert f * (a - b) == 0.0;
    if a > b { PositiveProduct(f, a - b, 0.0); }
    if a < b { PositiveProduct(f, b - a, 0.0); }
  }
}
