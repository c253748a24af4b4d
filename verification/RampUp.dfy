/** Batch-size ramp-up and the prediction of the number of training iterations.

    The global batch size grows from a start size to its final size while the first `ramp` samples are
    consumed.  Training by samples first predicts how many iterations the samples allow, by replaying
    the ramp, and then trains for that many iterations.  Ratios are exact reals. */
module RampUp {
  import opened Wrappers

  datatype Config = Config(start: int, increment: int, ramp: int, global: int, micro: int, dataParallel: int)

  // ----- Configurations -----

  function Unit(c: Config): int {
    c.micro * c.dataParallel
  }

  /** The assertions of the constructor. */
  predicate Accepted(c: Config) {
    && Unit(c) > 0 && c.start > 0 && c.global > 0 && c.global - c.start >= 0
    && c.increment > 0 && (c.global - c.start) % c.increment == 0 && c.ramp >= 0
  }

  function NumIncrements(c: Config): int
    requires c.increment > 0
  {
    (c.global - c.start) / c.increment
  }

  /** The constructor divides by the number of increments and its first update by the samples per
      increment, so neither may be zero. */
  predicate Usable(c: Config) {
    Accepted(c) && NumIncrements(c) > 0 && c.ramp > 0
  }

  function SamplesPerIncrement(c: Config): (r: real)
    requires Usable(c)
    ensures r > 0.0
  {
    c.ramp as real / NumIncrements(c) as real
  }

  // ----- The batch size as a function of the samples consumed -----

  function Steps(c: Config, consumed: nat): int
    requires Usable(c)
  {
    (consumed as real / SamplesPerIncrement(c)).Floor
  }

  function BatchAt(c: Config, consumed: nat): int
    requires Usable(c)
  {
    if consumed > c.ramp then c.global else c.start + Steps(c, consumed) * c.increment
  }

  lemma QuotientMonotone(x: real, y: real, d: real)
    requires d > 0.0 && x <= y
    ensures x / d <= y / d
  {
    assert y / d - x / d == (y - x) / d;
  }

  lemma StepsMonotone(c: Config, a: nat, b: nat)
    requires Usable(c) && a <= b
    ensures Steps(c, a) <= Steps(c, b)
  {
    QuotientMonotone(a as real, b as real, SamplesPerIncrement(c));
  }

  lemma RampIsAllSteps(r: real, n: real)
    requires r > 0.0 && n > 0.0
    ensures r / (r / n) == n
  {
    var d := r / n;
    assert d * n == r;
    assert r / d == n by {
      assert (n * d) / d == n;
    }
  }

  lemma StepsBounds(c: Config, consumed: nat)
    requires Usable(c)
    ensures 0 <= Steps(c, consumed)
    ensures consumed <= c.ramp ==> Steps(c, consumed) <= NumIncrements(c)
    ensures Steps(c, c.ramp) == NumIncrements(c)
  {
    var d := SamplesPerIncrement(c);
    RampIsAllSteps(c.ramp as real, NumIncrements(c) as real);
    QuotientMonotone(0.0, consumed as real, d);
    if consumed <= c.ramp {
      StepsMonotone(c, consumed, c.ramp);
    }
  }

  lemma StepsTimesIncrement(c: Config, s: int)
    requires Usable(c) && 0 <= s <= NumIncrements(c)
    ensures 0 <= s * c.increment <= c.global - c.start
  {
    assert NumIncrements(c) * c.increment == c.global - c.start;
    assert (NumIncrements(c) - s) * c.increment >= 0;
    assert s * c.increment >= 0;
  }

  /** The batch size stays between the start size and the final size: the assertion inside the update
      never fails. */
  lemma BatchInRange(c: Config, consumed: nat)
    requires Usable(c)
    ensures c.start <= BatchAt(c, consumed) <= c.global
    ensures consumed >= c.ramp ==> BatchAt(c, consumed) == c.global
  {
    StepsBounds(c, consumed);
    if consumed <= c.ramp {
      StepsTimesIncrement(c, Steps(c, consumed));
      assert NumIncrements(c) * c.increment == c.global - c.start;
    }
  }

  lemma FirstBatch(c: Config)
    requires Usable(c)
    ensures BatchAt(c, 0) == c.start
  {
    assert 0 as real / SamplesPerIncrement(c) == 0.0;
  }

  lemma BatchMonotone(c: Config, a: nat, b: nat)
    requires Usable(c) && a <= b
    ensures BatchAt(c, a) <= BatchAt(c, b)
  {
    BatchInRange(c, a);
    if b <= c.ramp {
      StepsMonotone(c, a, b);
      assert (Steps(c, b) - Steps(c, a)) * c.increment >= 0;
    }
  }

  lemma QuotientReaches(x: real, d: real, k: real)
    requires d > 0.0
    ensures x / d >= k <==> x >= k * d
  {
    var q := x / d;
    assert q * d == x;
    assert (q - k) * d == x - k * d;
    SignOfProduct(q - k, d);
  }

  lemma SignOfProduct(x: real, d: real)
    requires d > 0.0
    ensures x * d >= 0.0 <==> x >= 0.0
  {
  }

  lemma ShareOfRamp(k: real, r: real, n: real, x: real)
    requires n > 0.0
    ensures x >= k * (r / n) <==> x * n >= k * r
  {
    assert k * (r / n) * n == k * r by {
      assert r / n * n == r;
    }
    assert (x - k * (r / n)) * n == x * n - k * r;
    SignOfProduct(x - k * (r / n), n);
  }

  /** `k` steps of the ramp are made once their share of its samples is consumed. */
  lemma StepsReach(c: Config, consumed: nat, k: nat)
    requires Usable(c)
    ensures Steps(c, consumed) >= k <==> consumed * NumIncrements(c) >= k * c.ramp
  {
    var n, x := NumIncrements(c) as real, consumed as real;
    QuotientReaches(x, SamplesPerIncrement(c), k as real);
    ShareOfRamp(k as real, c.ramp as real, n, x);
    assert (consumed * NumIncrements(c)) as real == x * n;
    assert (k * c.ramp) as real == k as real * c.ramp as real;
  }

  lemma IncrementsInOrder(k: int, s: int, inc: int)
    requires inc > 0
    ensures s * inc >= k * inc <==> s >= k
  {
    if s >= k {
      assert (s - k) * inc >= 0;
    } else {
      assert (k - s) * inc > 0;
    }
  }

  lemma ProductsInOrder(x: int, y: int, g: int)
    requires x <= y && g >= 0
    ensures x * g <= y * g
  {
    assert (y - x) * g >= 0;
  }

  lemma FinalReachesAll(c: Config, consumed: nat, k: nat)
    requires Usable(c) && k <= NumIncrements(c) && consumed > c.ramp
    ensures BatchAt(c, consumed) >= c.start + k * c.increment && consumed * NumIncrements(c) >= k * c.ramp
  {
    IncrementsInOrder(k, NumIncrements(c), c.increment);
    ProductsInOrder(c.ramp, consumed, NumIncrements(c));
    ProductsInOrder(k, NumIncrements(c), c.ramp);
  }

  lemma RampReaches(c: Config, consumed: nat, k: nat)
    requires Usable(c) && k <= NumIncrements(c) && consumed <= c.ramp
    ensures BatchAt(c, consumed) >= c.start + k * c.increment <==> consumed * NumIncrements(c) >= k * c.ramp
  {
    StepsReach(c, consumed, k);
    IncrementsInOrder(k, Steps(c, consumed), c.increment);
  }

  /** The ramp goes up by one increment after each equal share of its samples. */
  lemma BatchReaches(c: Config, consumed: nat, k: nat)
    requires Usable(c) && k <= NumIncrements(c)
    ensures BatchAt(c, consumed) >= c.start + k * c.increment <==> consumed * NumIncrements(c) >= k * c.ramp
  {
    if consumed > c.ramp {
      FinalReachesAll(c, consumed, k);
    } else {
      RampReaches(c, consumed, k);
    }
  }

  /** It goes up by nothing but whole increments. */
  lemma BatchIsWholeIncrements(c: Config, consumed: nat) returns (k: nat)
    requires Usable(c)
    ensures k <= NumIncrements(c) && BatchAt(c, consumed) == c.start + k * c.increment
  {
    StepsBounds(c, consumed);
    k := if consumed > c.ramp then NumIncrements(c) else Steps(c, consumed);
  }

  /** Start size and increment are multiples of the samples one step of all replicas takes. */
  predicate Divisible(c: Config)
    requires Unit(c) > 0
  {
    c.start % Unit(c) == 0 && c.increment % Unit(c) == 0
  }

  lemma MultipleSum(a: int, b: int, k: int, u: int)
    requires u > 0 && a % u == 0 && b % u == 0
    ensures (a + k * b) % u == 0
  {
    var x, y := a / u, b / u;
    assert a == x * u && b == y * u;
    assert a + k * b == (x + k * y) * u;
    MultipleOf(x + k * y, u);
  }

  lemma MultipleOf(m: int, u: int)
    requires u > 0
    ensures (m * u) % u == 0 && (m * u) / u == m
  {
    var q, r := (m * u) / u, (m * u) % u;
    assert (m - q) * u == r;
    MultipleGap(m - q, u);
  }

  lemma MultipleGap(x: int, u: int)
    requires u > 0
    ensures x >= 1 ==> x * u >= u
    ensures x <= -1 ==> x * u <= -u
  {
  }

  lemma BatchDivisible(c: Config, consumed: nat)
    requires Usable(c) && Divisible(c)
    ensures BatchAt(c, consumed) % Unit(c) == 0
  {
    MultipleSum(c.start, c.increment, Steps(c, consumed), Unit(c));
    assert c.start + NumIncrements(c) * c.increment == c.global;
    MultipleSum(c.start, c.increment, NumIncrements(c), Unit(c));
  }

  // ----- The calculator -----

  class RampupBatchsize {
    const config: Config
    var currentGlobalBatchSize: int
    var numMicroBatches: int

    /** The constructor, for a configuration that raises nothing: training begins with the start size. */
    constructor (c: Config)
      requires Usable(c)
      ensures config == c && currentGlobalBatchSize == c.start
      ensures numMicroBatches == c.start / Unit(c)
    {
      config := c;
      currentGlobalBatchSize, numMicroBatches := 0, 0;
      new;
      FirstBatch(c);
      var _ := Update(0, false);
    }

    /** `update`; the result is false when the consistency assertion fails. */
    method Update(consumed: nat, consistencyCheck: bool) returns (ok: bool)
      requires Usable(config)
      modifies this
      ensures currentGlobalBatchSize == BatchAt(config, consumed)
      ensures config.start <= currentGlobalBatchSize <= config.global
      ensures ok <==> !consistencyCheck || currentGlobalBatchSize % Unit(config) == 0
      ensures ok ==> numMicroBatches == currentGlobalBatchSize / Unit(config)
    {
      if consumed > config.ramp {
        currentGlobalBatchSize := config.global;
      } else {
        var steps := (consumed as real / SamplesPerIncrement(config)).Floor;
        currentGlobalBatchSize := config.start + steps * config.increment;
      }
      BatchInRange(config, consumed);
      if consistencyCheck && currentGlobalBatchSize % Unit(config) != 0 {
        return false;
      }
      numMicroBatches := currentGlobalBatchSize / Unit(config);
      ok := true;
    }
  }

  /** Building the calculator fails exactly for the configurations that are not usable. */
  method Build(c: Config) returns (calculator: Option<RampupBatchsize>)
    ensures calculator.Some? <==> Usable(c)
    ensures calculator.Some? ==> calculator.value.config == c && fresh(calculator.value)
  {
    if c.micro * c.dataParallel <= 0 || c.start <= 0 || c.global <= 0 {
      return None;
    }
    var diff := c.global - c.start;
    if diff < 0 || c.increment <= 0 || diff % c.increment != 0 {
      return None;
    }
    var numIncrements := diff / c.increment;
    if c.ramp < 0 || numIncrements == 0 || c.ramp == 0 {
      return None;
    }
    NumIncrementsNonNegative(c);
    var built := new RampupBatchsize(c);
    calculator := Some(built);
  }

  lemma NumIncrementsNonNegative(c: Config)
    requires Accepted(c)
    ensures NumIncrements(c) >= 0
  {
  }

  // ----- Prediction and training -----

  /** Samples consumed after `k` iterations of training. */
  ghost function Consumed(c: Config, k: nat): (n: nat)
    requires Usable(c)
  {
    if k == 0 then 0
    else
      BatchInRange(c, Consumed(c, k - 1));
      Consumed(c, k - 1) + BatchAt(c, Consumed(c, k - 1))
  }

  /** The ramp lasts `k` iterations: they start within the ramp, and the next one does not. */
  ghost predicate RampLasts(c: Config, k: nat)
    requires Usable(c)
  {
    Consumed(c, k) > c.ramp && (k > 0 ==> Consumed(c, k - 1) <= c.ramp)
  }

  lemma {:induction false} ConsumedMonotone(c: Config, j: nat, k: nat)
    requires Usable(c) && j <= k
    ensures Consumed(c, j) + (k - j) <= Consumed(c, k) <= Consumed(c, j) + (k - j) * c.global
    decreases k - j
  {
    if j < k {
      ConsumedMonotone(c, j, k - 1);
      BatchInRange(c, Consumed(c, k - 1));
      assert (k - j) * c.global == (k - 1 - j) * c.global + c.global;
    }
  }

  lemma {:induction false} ConsumedAfterRamp(c: Config, k: nat, j: nat)
    requires Usable(c) && Consumed(c, k) > c.ramp
    ensures Consumed(c, k + j) == Consumed(c, k) + j * c.global
  {
    if j > 0 {
      ConsumedAfterRamp(c, k, j - 1);
      ConsumedMonotone(c, k, k + j - 1);
      assert j * c.global == (j - 1) * c.global + c.global;
    }
  }

  /** The ramp-up branch of `update_train_iters`; `rampIters` is the number of ramp iterations. */
  method PredictIterations(calculator: RampupBatchsize, trainSamples: int) returns (iterations: int, ghost rampIters: nat)
    requires Usable(calculator.config)
    modifies calculator
    ensures RampLasts(calculator.config, rampIters)
    ensures iterations == rampIters + (trainSamples - Consumed(calculator.config, rampIters)) / calculator.config.global
    ensures calculator.currentGlobalBatchSize == BatchAt(calculator.config, 0)
  {
    var c := calculator.config;
    iterations := 0;
    rampIters := 0;
    var consumed := 0;
    while consumed <= c.ramp
      invariant iterations == rampIters && consumed == Consumed(c, rampIters)
      invariant rampIters > 0 ==> Consumed(c, rampIters - 1) <= c.ramp
      decreases c.ramp + 1 - consumed
    {
      var _ := calculator.Update(consumed, false);
      consumed := consumed + calculator.currentGlobalBatchSize;
      iterations := iterations + 1;
      rampIters := rampIters + 1;
    }
    var _ := calculator.Update(0, false);
    iterations := iterations + (trainSamples - consumed) / c.global;
  }

  /** One training iteration: the two updates and the samples it takes. */
  method TrainStep(calculator: RampupBatchsize, consumed: nat) returns (batchSize: int, ok: bool)
    requires Usable(calculator.config)
    modifies calculator
    ensures ok ==> batchSize == BatchAt(calculator.config, consumed)
    ensures Divisible(calculator.config) ==> ok
  {
    var c := calculator.config;
    batchSize := 0;
    var _ := calculator.Update(consumed, false);
    ok := calculator.Update(consumed, true);
    if ok {
      WholeUnits(calculator.currentGlobalBatchSize, Unit(c));
      batchSize := c.dataParallel * c.micro * calculator.numMicroBatches;
      assert c.dataParallel * c.micro == Unit(c);
      assert batchSize == calculator.numMicroBatches * Unit(c);
    } else if Divisible(c) {
      BatchDivisible(c, consumed);
    }
  }

  /** The sample accounting of `train`, from the start; false when a consistency assertion fails. */
  method Train(calculator: RampupBatchsize, iterations: int) returns (consumed: nat, ok: bool)
    requires Usable(calculator.config)
    modifies calculator
    ensures ok ==> consumed == Consumed(calculator.config, if iterations >= 0 then iterations else 0)
    ensures Divisible(calculator.config) ==> ok
  {
    consumed, ok := 0, true;
    var iteration := 0;
    while iteration < iterations
      invariant 0 <= iteration && (iteration <= iterations || iteration == 0)
      invariant consumed == Consumed(calculator.config, iteration) && ok
    {
      var batchSize;
      batchSize, ok := TrainStep(calculator, consumed);
      if !ok {
        return;
      }
      BatchInRange(calculator.config, consumed);
      iteration := iteration + 1;
      consumed := consumed + batchSize;
    }
  }

  lemma WholeUnits(n: int, u: int)
    requires u > 0 && n % u == 0
    ensures n / u * u == n
  {
  }

  lemma FloorQuotient(x: int, g: int)
    requires g > 0
    ensures x - g < x / g * g <= x
    ensures x >= 0 ==> x / g >= 0
  {
  }

  /** `n` iterations are what is predicted when the ramp takes `rampIters` of them: the samples beyond
      the ramp (or short of it), in whole batches of the final size rounded down. */
  ghost predicate Predicted(c: Config, rampIters: nat, trainSamples: nat, n: int)
    requires Usable(c) && RampLasts(c, rampIters)
  {
    var beyond := (n - rampIters) * c.global;
    Consumed(c, rampIters) + beyond <= trainSamples < Consumed(c, rampIters) + beyond + c.global
  }

  lemma QuotientIsPredicted(c: Config, rampIters: nat, trainSamples: nat, n: int)
    requires Usable(c) && RampLasts(c, rampIters)
    requires n == rampIters + (trainSamples - Consumed(c, rampIters)) / c.global
    ensures Predicted(c, rampIters, trainSamples, n) && n >= 0
  {
    var used := Consumed(c, rampIters);
    FloorQuotient(trainSamples - used, c.global);
    ConsumedMonotone(c, 0, rampIters);
    NotBelowZero(rampIters, (trainSamples - used) / c.global, c.global, used, trainSamples);
  }

  /** The predicted number of iterations. */
  ghost function Iterations(c: Config, rampIters: nat, trainSamples: nat): (n: nat)
    requires Usable(c) && RampLasts(c, rampIters)
    ensures Predicted(c, rampIters, trainSamples, n)
  {
    var n := rampIters + (trainSamples - Consumed(c, rampIters)) / c.global;
    QuotientIsPredicted(c, rampIters, trainSamples, n);
    n
  }

  lemma AddTimes(x: int, y: int, g: int)
    ensures (x + y) * g == x * g + y * g
  {
  }

  /** A prediction beyond the ramp consumes as many final batches as it has. */
  lemma PredictedBeyondRamp(c: Config, trainSamples: nat, rampIters: nat, n: nat)
    requires Usable(c) && RampLasts(c, rampIters) && Predicted(c, rampIters, trainSamples, n) && n >= rampIters
    ensures trainSamples - c.global < Consumed(c, n) <= trainSamples
  {
    var j := n - rampIters;
    ConsumedAfterRamp(c, rampIters, j);
    assert rampIters + j == n;
  }

  lemma PredictedBeforeRampEnds(c: Config, trainSamples: nat, rampIters: nat, n: nat)
    requires Usable(c) && RampLasts(c, rampIters) && Predicted(c, rampIters, trainSamples, n) && n < rampIters
    ensures trainSamples < Consumed(c, rampIters) && trainSamples - c.global < Consumed(c, n)
  {
    ConsumedMonotone(c, n, rampIters);
    AddTimes(n - rampIters, rampIters - n, c.global);
    MultipleGap(n - rampIters, c.global);
  }

  lemma PredictedUsesSamples(c: Config, trainSamples: nat, rampIters: nat, n: nat)
    requires Usable(c) && RampLasts(c, rampIters) && Predicted(c, rampIters, trainSamples, n)
    ensures trainSamples - c.global < Consumed(c, n)
    ensures trainSamples >= Consumed(c, rampIters) ==> Consumed(c, n) <= trainSamples
  {
    if n >= rampIters {
      PredictedBeyondRamp(c, trainSamples, rampIters, n);
    } else {
      PredictedBeforeRampEnds(c, trainSamples, rampIters, n);
    }
  }

  lemma PositiveFactor(n: int, g: int)
    requires g > 0 && n * g > 0
    ensures n > 0
  {
    if n <= 0 {
      MultipleGap(1 - n, g);
    }
  }

  /** Training for the predicted number of iterations never stops more than a batch short of the samples;
      and when the samples reach beyond the ramp it does not exceed them either. */
  lemma PredictionUsesSamples(c: Config, trainSamples: nat, rampIters: nat)
    requires Usable(c) && RampLasts(c, rampIters)
    ensures trainSamples - c.global < Consumed(c, Iterations(c, rampIters, trainSamples))
    ensures trainSamples >= Consumed(c, rampIters) ==> !Overshoots(c, rampIters, trainSamples)
  {
    PredictedUsesSamples(c, trainSamples, rampIters, Iterations(c, rampIters, trainSamples));
  }

  lemma NotBelowZero(k: nat, j: int, g: int, used: nat, samples: nat)
    requires g > 0 && used <= k * g && samples - used - g < j * g
    ensures k + j >= 0
  {
    assert (k + j) * g == k * g + j * g;
    MultipleGap(k + j, g);
  }

  lemma RampEndsOnce(c: Config, j: nat, k: nat)
    requires Usable(c) && RampLasts(c, j) && RampLasts(c, k)
    ensures j == k
  {
    if j < k {
      ConsumedMonotone(c, j, k - 1);
    } else if k < j {
      ConsumedMonotone(c, k, j - 1);
    }
  }

  // ----- When training stays within the samples -----

  ghost predicate Overshoots(c: Config, rampIters: nat, trainSamples: nat)
    requires Usable(c) && RampLasts(c, rampIters)
  {
    Consumed(c, Iterations(c, rampIters, trainSamples)) > trainSamples
  }

  /** The batch of iteration `k` (the first is iteration 0) already has the final size. */
  ghost predicate FinalFrom(c: Config, k: nat)
    requires Usable(c)
  {
    BatchAt(c, Consumed(c, k)) == c.global
  }

  /** The second batch already has the final size. */
  predicate RampsAtOnce(c: Config)
    requires Usable(c)
  {
    BatchAt(c, c.start) == c.global
  }

  /** The second batch has the final size, or the third when the first is a single sample. */
  predicate RampsInTime(c: Config)
    requires Usable(c)
  {
    RampsAtOnce(c) || (c.start == 1 && BatchAt(c, 1 + BatchAt(c, 1)) == c.global)
  }

  lemma FirstConsumed(c: Config)
    requires Usable(c)
    ensures Consumed(c, 1) == c.start && Consumed(c, 2) == c.start + BatchAt(c, c.start)
  {
    FirstBatch(c);
    assert Consumed(c, 1) == Consumed(c, 0) + BatchAt(c, 0);
    BatchInRange(c, c.start);
  }

  lemma {:induction false} ConsumedWhenFinal(c: Config, k: nat, j: nat)
    requires Usable(c) && FinalFrom(c, k)
    ensures Consumed(c, k + j) == Consumed(c, k) + j * c.global
  {
    if j > 0 {
      ConsumedWhenFinal(c, k, j - 1);
      ConsumedMonotone(c, k, k + j - 1);
      BatchMonotone(c, Consumed(c, k), Consumed(c, k + j - 1));
      BatchInRange(c, Consumed(c, k + j - 1));
      AddTimes(j - 1, 1, c.global);
    }
  }

  /** Predictions of at least `k` iterations stay within the samples when batch `k` is final. */
  lemma PredictedWithinSamples(c: Config, rampIters: nat, trainSamples: nat, n: nat, k: nat)
    requires Usable(c) && RampLasts(c, rampIters) && Predicted(c, rampIters, trainSamples, n)
    requires FinalFrom(c, k) && n >= k
    ensures Consumed(c, n) <= trainSamples
  {
    if n >= rampIters {
      PredictedBeyondRamp(c, trainSamples, rampIters, n);
    } else {
      ConsumedWhenFinal(c, k, n - k);
      ConsumedWhenFinal(c, k, rampIters - k);
      AddTimes(n - rampIters, rampIters - k, c.global);
    }
  }

  /** If the second batch has the final size, training never exceeds the samples; if only the third has it
      and the first is a single sample, it never exceeds them when there are any. */
  lemma WithinSamplesWhenRampsInTime(c: Config, rampIters: nat, trainSamples: nat)
    requires Usable(c) && RampLasts(c, rampIters) && RampsInTime(c)
    requires trainSamples >= 1 || RampsAtOnce(c)
    ensures !Overshoots(c, rampIters, trainSamples)
  {
    var n := Iterations(c, rampIters, trainSamples);
    FirstConsumed(c);
    var k := if RampsAtOnce(c) then 1 else 2;
    if n >= k {
      PredictedWithinSamples(c, rampIters, trainSamples, n, k);
    }
  }

  /** Too few samples: as many as lie beyond what final batches would take in place of the ramp's batches
      from the k-th on, but at least one. */
  ghost function FewSamples(c: Config, rampIters: nat, k: nat): (t: nat)
    requires Usable(c) && RampLasts(c, rampIters)
    ensures t >= 1
  {
    var rest := Consumed(c, rampIters) - (rampIters - k) * c.global;
    if rest >= 1 then rest else 1
  }

  lemma PredictedAtLeast(c: Config, rampIters: nat, trainSamples: nat, n: nat, k: nat)
    requires Usable(c) && RampLasts(c, rampIters) && Predicted(c, rampIters, trainSamples, n)
    requires trainSamples >= Consumed(c, rampIters) - (rampIters - k) * c.global
    ensures n >= k
  {
    AddTimes(n - rampIters, rampIters - k, c.global);
    AddTimes(n - k, 1, c.global);
    PositiveFactor(n - k + 1, c.global);
  }

  lemma SlowIsWithinRamp(c: Config, rampIters: nat, k: nat)
    requires Usable(c) && RampLasts(c, rampIters) && !FinalFrom(c, k)
    ensures rampIters > k && Consumed(c, k + 1) < Consumed(c, k) + c.global
  {
    BatchInRange(c, Consumed(c, k));
    if rampIters <= k {
      ConsumedMonotone(c, rampIters, k);
    }
  }

  lemma SlowRampTakesLess(c: Config, rampIters: nat, k: nat)
    requires Usable(c) && RampLasts(c, rampIters) && !FinalFrom(c, k)
    ensures rampIters > k && Consumed(c, rampIters) < Consumed(c, k) + (rampIters - k) * c.global
  {
    SlowIsWithinRamp(c, rampIters, k);
    ConsumedMonotone(c, k + 1, rampIters);
    AddTimes(rampIters - (k + 1), 1, c.global);
  }

  /** While the k-th batch is not final and more than one sample comes before it, some number of samples,
      at least one, is exceeded. */
  lemma SlowRampOvershoots(c: Config, rampIters: nat, k: nat)
    requires Usable(c) && RampLasts(c, rampIters) && !FinalFrom(c, k) && Consumed(c, k) > 1
    ensures Overshoots(c, rampIters, FewSamples(c, rampIters, k))
  {
    var t := FewSamples(c, rampIters, k);
    var n := Iterations(c, rampIters, t);
    SlowRampTakesLess(c, rampIters, k);
    PredictedAtLeast(c, rampIters, t, n, k);
    ConsumedMonotone(c, k, n);
  }

  /** Any other ramp exceeds some positive number of samples. */
  lemma ShortRunsOvershoot(c: Config, rampIters: nat) returns (trainSamples: nat)
    requires Usable(c) && RampLasts(c, rampIters) && !RampsInTime(c)
    ensures trainSamples >= 1 && Overshoots(c, rampIters, trainSamples)
  {
    FirstConsumed(c);
    BatchInRange(c, c.start);
    var k := if c.start > 1 then 1 else 2;
    SlowRampOvershoots(c, rampIters, k);
    trainSamples := FewSamples(c, rampIters, k);
  }

  /** Training stays within the samples, however many there are (but there are some), exactly when the
      second batch already has the final size, or the third after a first of a single sample. */
  lemma NeverOvershootsIff(c: Config, rampIters: nat)
    requires Usable(c) && RampLasts(c, rampIters)
    ensures (forall trainSamples: nat :: trainSamples >= 1 ==> !Overshoots(c, rampIters, trainSamples)) <==> RampsInTime(c)
  {
    if RampsInTime(c) {
      forall trainSamples: nat | trainSamples >= 1 ensures !Overshoots(c, rampIters, trainSamples) {
        WithinSamplesWhenRampsInTime(c, rampIters, trainSamples);
      }
    } else {
      var trainSamples := ShortRunsOvershoot(c, rampIters);
    }
  }

  /** For instance, with sizes 1 to 4 over 3 samples a single sample is exceeded: two are consumed. */
  lemma OvershootExample(rampIters: nat)
    requires RampLasts(Config(1, 3, 3, 4, 1, 1), rampIters)
    ensures var c := Config(1, 3, 3, 4, 1, 1);
            && !RampsInTime(c) && Overshoots(c, rampIters, 1)
            && Iterations(c, rampIters, 1) == 2 && Consumed(c, 2) == 2
  {
    var c := Config(1, 3, 3, 4, 1, 1);
    assert SamplesPerIncrement(c) == 3.0;
    assert BatchAt(c, 0) == 1 && BatchAt(c, 1) == 1 && BatchAt(c, 2) == 1 && BatchAt(c, 3) == 4;
    assert Consumed(c, 1) == 1;
    assert Consumed(c, 2) == 2;
    assert Consumed(c, 3) == 3;
    assert Consumed(c, 4) == 7;
    RampEndsOnce(c, rampIters, 4);
  }

  /** And with sizes 1 to 3 in steps of 1 over 2 samples none is: the third batch is the final one. */
  lemma InTimeExample(rampIters: nat, trainSamples: nat)
    requires RampLasts(Config(1, 1, 2, 3, 1, 1), rampIters) && trainSamples >= 1
    ensures !RampsAtOnce(Config(1, 1, 2, 3, 1, 1)) && !Overshoots(Config(1, 1, 2, 3, 1, 1), rampIters, trainSamples)
  {
    var c := Config(1, 1, 2, 3, 1, 1);
    assert SamplesPerIncrement(c) == 1.0;
    assert BatchAt(c, 1) == 2 && BatchAt(c, 3) == 3;
    NeverOvershootsIff(c, rampIters);
  }

  /** Prediction and training together, for a configuration whose batches divide evenly. */
  method TrainBySamples(calculator: RampupBatchsize, trainSamples: nat) returns (consumed: nat, ghost rampIters: nat)
    requires Usable(calculator.config) && Divisible(calculator.config)
    modifies calculator
    ensures RampLasts(calculator.config, rampIters)
    ensures trainSamples - calculator.config.global < consumed
    ensures consumed > trainSamples <==> Overshoots(calculator.config, rampIters, trainSamples)
    ensures trainSamples >= Consumed(calculator.config, rampIters) || RampsAtOnce(calculator.config) ==> consumed <= trainSamples
    ensures trainSamples >= 1 && RampsInTime(calculator.config) ==> consumed <= trainSamples
  {
    var iterations;
    iterations, rampIters := PredictIterations(calculator, trainSamples);
    PredictionUsesSamples(calculator.config, trainSamples, rampIters);
    if RampsAtOnce(calculator.config) || (RampsInTime(calculator.config) && trainSamples >= 1) {
      WithinSamplesWhenRampsInTime(calculator.config, rampIters, trainSamples);
    }
    var ok;
    consumed, ok := Train(calculator, iterations);
  }
}
