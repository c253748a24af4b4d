/** What the learning-rate and weight-decay schedules compute, and when they raise an exception.

    The schedules are straight lines where they are linear; the other shapes run between the same ends. */
module SchedulerLaws {
  import opened Wrappers
  import opened ParamScheduler

  // ----- Lines -----

  /** `r` lies on the line from `low` at 0 to `high` at `length`. */
  predicate OnLine(r: real, low: real, high: real, n: int, length: int) {
    (r - low) * length as real == (high - low) * n as real
  }

  lemma QuotientTimes(x: real, d: real)
    requires d != 0.0
    ensures x / d * d == x
  {
  }

  lemma OnlyPointOnLine(r: real, low: real, high: real, n: int, length: int)
    requires OnLine(r, low, high, n, length) && length > 0
    ensures n == 0 ==> r == low
    ensures n == length ==> r == high
  {
    if n == 0 {
      Cancel(r - low, 0.0, length as real);
    } else if n == length {
      Cancel(r - low, high - low, length as real);
    }
  }

  lemma Cancel(x: real, y: real, d: real)
    requires d > 0.0 && x * d == y * d
    ensures x == y
  {
    assert (x - y) * d == 0.0;
    assert (x - y) * d / d == x - y;
  }

  /** Between its ends a rising line stays between their heights. */
  lemma LineBounds(r: real, low: real, high: real, n: int, length: int)
    requires OnLine(r, low, high, n, length) && 0 <= n <= length && length > 0 && low <= high
    ensures low <= r <= high
  {
    var d := length as real;
    NonNegativeProduct(high - low, n as real);
    NonNegativeProduct(high - low, d - n as real);
    assert (high - r) * d == (high - low) * (d - n as real) by {
      assert (high - r) * d == (high - low) * d - (r - low) * d;
    }
    NonNegativeFactor(r - low, d);
    NonNegativeFactor(high - r, d);
  }

  lemma NonNegativeProduct(x: real, y: real)
    requires x >= 0.0 && y >= 0.0
    ensures x * y >= 0.0
  {
  }

  lemma NonNegativeFactor(x: real, d: real)
    requires d > 0.0 && x * d >= 0.0
    ensures x >= 0.0
  {
  }

  /** The points of a line are equally far apart. */
  lemma EqualSteps(r: real, r': real, low: real, high: real, n: int, length: int)
    requires OnLine(r, low, high, n, length) && OnLine(r', low, high, n + 1, length)
    ensures (r' - r) * length as real == high - low
  {
    assert (r' - r) * length as real == (r' - low) * length as real - (r - low) * length as real;
    assert (high - low) * (n + 1) as real == (high - low) * n as real + (high - low);
  }

  // ----- The learning rate -----

  predicate WarmingUp(s: LrSettings, n: int) {
    s.warmupSteps > 0 && n <= s.warmupSteps
  }

  lemma ScaledLine(low: real, high: real, n: real, d: real)
    requires d != 0.0
    ensures (high - low) * n / d * d == (high - low) * n
  {
    QuotientTimes((high - low) * n, d);
  }

  /** Warm-up goes from the initial to the maximal rate in equal steps, whatever the style. */
  lemma WarmupIsLine(sh: Shapes, init: real, s: LrSettings, n: nat)
    requires WarmingUp(s, n)
    ensures GetLr(sh, init, s, n).Some? && OnLine(GetLr(sh, init, s, n).value, init, s.maxLr, n, s.warmupSteps)
    ensures n == 0 ==> GetLr(sh, init, s, n) == Some(init)
    ensures n == s.warmupSteps ==> GetLr(sh, init, s, n) == Some(s.maxLr)
  {
    var r := GetLr(sh, init, s, n).value;
    ScaledLine(init, s.maxLr, n as real, s.warmupSteps as real);
    OnlyPointOnLine(r, init, s.maxLr, n, s.warmupSteps);
  }

  lemma RatioIsDefined(n: int, d: int)
    requires 0 <= n <= d && d > 0
    ensures Ratio(n, d).Some? && Ratio(n, d).value * d as real == n as real
    ensures (n == 0 ==> Ratio(n, d).value == 0.0) && (n == d ==> Ratio(n, d).value == 1.0)
  {
    var r := n as real / d as real;
    QuotientTimes(n as real, d as real);
    NonNegativeFactor(r, d as real);
    assert (1.0 - r) * d as real == d as real - n as real;
    NonNegativeFactor(1.0 - r, d as real);
    if n == d {
      Cancel(r, 1.0, d as real);
    }
  }

  lemma FallingLine(ratio: real, low: real, high: real, n: real, d: real)
    requires ratio * d == n
    ensures (high - (low + (1.0 - ratio) * (high - low))) * d == (high - low) * n
  {
    assert high - (low + (1.0 - ratio) * (high - low)) == ratio * (high - low);
    assert ratio * (high - low) * d == (high - low) * (ratio * d);
  }

  /** Linear decay falls from the maximal rate at the end of the warm-up to the minimal rate at
      `decaySteps`, in equal steps, and stays there. */
  lemma LinearDecay(sh: Shapes, init: real, s: LrSettings, n: nat)
    requires s.decayStyle == "linear" && s.warmupSteps < s.decaySteps && s.warmupSteps <= n
    ensures GetLr(sh, init, s, n).Some?
    ensures var r := GetLr(sh, init, s, n).value;
            if n <= s.decaySteps then OnLine(s.maxLr + s.minLr - r, s.minLr, s.maxLr, n - s.warmupSteps, s.decaySteps - s.warmupSteps)
            else r == s.minLr
    ensures n == s.warmupSteps ==> GetLr(sh, init, s, n) == Some(s.maxLr)
    ensures n == s.decaySteps ==> GetLr(sh, init, s, n) == Some(s.minLr)
  {
    var k, d := n - s.warmupSteps, s.decaySteps - s.warmupSteps;
    if WarmingUp(s, n) {
      WarmupIsLine(sh, init, s, n);
    } else if n <= s.decaySteps {
      RatioIsDefined(k, d);
      FallingLine(Ratio(k, d).value, s.minLr, s.maxLr, k as real, d as real);
      var r := GetLr(sh, init, s, n).value;
      assert s.maxLr + s.minLr - r - s.minLr == s.maxLr - r;
      OnlyPointOnLine(s.maxLr + s.minLr - r, s.minLr, s.maxLr, k, d);
    }
  }

  lemma PointBetween(low: real, high: real, f: real, r: real)
    requires r == low + f * (high - low)
    ensures OnLineAt(r, low, high, f) && (f == 0.0 ==> r == low) && (f == 1.0 ==> r == high)
  {
  }

  /** Cosine decay runs between the same ends, along the shape. */
  lemma CosineDecay(sh: Shapes, init: real, s: LrSettings, n: nat) returns (x: real)
    requires s.decayStyle == "cosine" && s.warmupSteps < s.decaySteps && s.warmupSteps <= n && !WarmingUp(s, n)
    requires n <= s.decaySteps
    ensures x * (s.decaySteps - s.warmupSteps) as real == (n - s.warmupSteps) as real
    ensures GetLr(sh, init, s, n).Some?
    ensures OnLineAt(GetLr(sh, init, s, n).value, s.minLr, s.maxLr, sh.cosine(x))
    ensures n == s.warmupSteps && sh.cosine(0.0) == 1.0 ==> GetLr(sh, init, s, n) == Some(s.maxLr)
    ensures n == s.decaySteps && sh.cosine(1.0) == 0.0 ==> GetLr(sh, init, s, n) == Some(s.minLr)
  {
    var k, d := n - s.warmupSteps, s.decaySteps - s.warmupSteps;
    RatioIsDefined(k, d);
    x := Ratio(k, d).value;
    PointBetween(s.minLr, s.maxLr, sh.cosine(x), GetLr(sh, init, s, n).value);
  }

  /** `r` is the fraction `f` of the way from `low` to `high`. */
  predicate OnLineAt(r: real, low: real, high: real, f: real) {
    r - low == f * (high - low)
  }

  /** With the square root's ratio, the rate squared falls as one over the step, down to the minimum. */
  lemma InverseSquareRootDecay(sh: Shapes, init: real, s: LrSettings, n: nat)
    requires s.decayStyle == "inverse-square-root" && !WarmingUp(s, n) && n <= s.decaySteps
    requires forall w, m :: w >= 1 && m >= 1 ==> sh.rootRatio(w, m) * sh.rootRatio(w, m) * m as real == w as real
    ensures GetLr(sh, init, s, n).Some? && GetLr(sh, init, s, n).value >= s.minLr
    ensures var r, w, m := GetLr(sh, init, s, n).value, if s.warmupSteps > 1 then s.warmupSteps else 1, if n > 1 then n else 1;
            r == s.minLr || r * r * m as real == s.maxLr * s.maxLr * w as real
  {
    var w, m := if s.warmupSteps > 1 then s.warmupSteps else 1, if n > 1 then n else 1;
    SquaredRate(s.maxLr, sh.rootRatio(w, m), m as real, w as real);
  }

  lemma SquaredRate(x: real, q: real, m: real, w: real)
    requires q * q * m == w
    ensures x * q * (x * q) * m == x * x * w
  {
    assert x * q * (x * q) * m == x * x * (q * q * m);
  }

  lemma ConstantRate(sh: Shapes, init: real, s: LrSettings, n: int)
    requires s.decayStyle == "constant" && !WarmingUp(s, n)
    ensures GetLr(sh, init, s, n) == Some(s.maxLr)
  {
  }

  predicate KnownDecay(style: string) {
    style == "constant" || style == "inverse-square-root" || style == "linear" || style == "cosine"
  }

  /** Whatever the style, after the decay the rate is minimal, unless it is constant. */
  lemma AfterDecay(sh: Shapes, init: real, s: LrSettings, n: int)
    requires !WarmingUp(s, n) && n > s.decaySteps && s.decayStyle != "constant"
    ensures GetLr(sh, init, s, n) == Some(s.minLr)
  {
  }

  /** The learning rate raises an exception exactly for an unknown style, from the end of the warm-up to
      the end of the decay. */
  lemma LrRaisesIff(sh: Shapes, init: real, s: LrSettings, n: nat)
    requires s.warmupSteps < s.decaySteps
    ensures GetLr(sh, init, s, n).None? <==> !WarmingUp(s, n) && n <= s.decaySteps && !KnownDecay(s.decayStyle)
  {
    if !WarmingUp(s, n) && n <= s.decaySteps {
      RatioIsDefined(n - s.warmupSteps, s.decaySteps - s.warmupSteps);
    }
  }

  /** Linear rates stay between the lower of the initial and the minimal rate and the maximal rate. */
  lemma LinearRateInRange(sh: Shapes, init: real, s: Settings, mode: Mode, n: nat)
    requires Accepted(init, s, mode) && s.lr.decayStyle == "linear"
    ensures GetLr(sh, init, s.lr, n).Some?
    ensures var r := GetLr(sh, init, s.lr, n).value; r <= s.lr.maxLr && (r >= init || r >= s.lr.minLr)
  {
    var l := s.lr;
    if WarmingUp(l, n) {
      WarmupIsLine(sh, init, l, n);
      LineBounds(GetLr(sh, init, l, n).value, init, l.maxLr, n, l.warmupSteps);
    } else {
      LinearDecay(sh, init, l, n);
      if n <= l.decaySteps {
        LineBounds(l.maxLr + l.minLr - GetLr(sh, init, l, n).value, l.minLr, l.maxLr, n - l.warmupSteps, l.decaySteps - l.warmupSteps);
      }
    }
  }

  // ----- The weight decay -----

  /** Linear weight decay goes from `startWd` at 0 to `endWd` at `incrSteps` in equal steps, and stays. */
  lemma LinearWeightDecay(sh: Shapes, s: WdSettings, n: nat)
    requires s.incrStyle == "linear" && s.incrSteps > 0
    ensures GetWd(sh, s, n).Some?
    ensures if n <= s.incrSteps then OnLine(GetWd(sh, s, n).value, s.startWd, s.endWd, n, s.incrSteps)
            else GetWd(sh, s, n).value == s.endWd
    ensures n == 0 ==> GetWd(sh, s, n) == Some(s.startWd)
    ensures n == s.incrSteps ==> GetWd(sh, s, n) == Some(s.endWd)
  {
    if n <= s.incrSteps {
      RatioIsDefined(n, s.incrSteps);
      RisingLine(Ratio(n, s.incrSteps).value, s.startWd, s.endWd, n as real, s.incrSteps as real);
      OnlyPointOnLine(GetWd(sh, s, n).value, s.startWd, s.endWd, n, s.incrSteps);
    }
  }

  lemma RisingLine(ratio: real, low: real, high: real, n: real, d: real)
    requires ratio * d == n
    ensures (low + ratio * (high - low) - low) * d == (high - low) * n
  {
    assert ratio * (high - low) * d == (high - low) * (ratio * d);
  }

  /** Cosine weight decay runs between the same ends, along the shape read backwards. */
  lemma CosineWeightDecay(sh: Shapes, s: WdSettings, n: nat) returns (x: real)
    requires s.incrStyle == "cosine" && s.incrSteps > 0 && n <= s.incrSteps
    ensures x * s.incrSteps as real == n as real
    ensures GetWd(sh, s, n).Some? && OnLineAt(GetWd(sh, s, n).value, s.startWd, s.endWd, sh.cosine(1.0 - x))
    ensures n == 0 && sh.cosine(1.0) == 0.0 ==> GetWd(sh, s, n) == Some(s.startWd)
    ensures n == s.incrSteps && sh.cosine(0.0) == 1.0 ==> GetWd(sh, s, n) == Some(s.endWd)
  {
    RatioIsDefined(n, s.incrSteps);
    x := Ratio(n, s.incrSteps).value;
    PointBetween(s.startWd, s.endWd, sh.cosine(1.0 - x), GetWd(sh, s, n).value);
  }

  /** Constant weight decay has one value and raises an exception when it is given two. */
  lemma ConstantWeightDecay(sh: Shapes, s: WdSettings, n: int)
    requires s.incrStyle == "constant" && n <= s.incrSteps
    ensures GetWd(sh, s, n) == if s.startWd == s.endWd then Some(s.startWd) else None
  {
  }

  /** Besides that, the weight decay raises an exception exactly when there are no steps to divide by or
      the style is unknown, until the steps are over. */
  lemma WdRaisesIff(sh: Shapes, s: WdSettings, n: nat)
    requires s.incrStyle != "constant"
    ensures GetWd(sh, s, n).None? <==> n <= s.incrSteps && (s.incrSteps == 0 || (s.incrStyle != "linear" && s.incrStyle != "cosine"))
  {
    if n <= s.incrSteps && s.incrSteps > 0 {
      RatioIsDefined(n, s.incrSteps);
    }
  }

  lemma LinearDecayInRange(sh: Shapes, init: real, s: Settings, mode: Mode, n: nat)
    requires Accepted(init, s, mode) && s.wd.incrStyle == "linear" && s.wd.incrSteps > 0
    ensures GetWd(sh, s.wd, n).Some? && 0.0 <= s.wd.startWd <= GetWd(sh, s.wd, n).value <= s.wd.endWd
  {
    LinearWeightDecay(sh, s.wd, n);
    if n <= s.wd.incrSteps {
      LineBounds(GetWd(sh, s.wd, n).value, s.wd.startWd, s.wd.endWd, n, s.wd.incrSteps);
    }
  }

  // ----- The parameter groups -----

  /** `x` is `rate` times the multiplier of the group, which counts as one when it has none. */
  predicate Multiplied(x: real, rate: real, multiplier: Option<real>) {
    if multiplier.Some? then x == rate * multiplier.value else x == rate
  }

  /** After a step each group has the two scheduled values, each times its own multiplier, and keeps its
      multipliers. */
  lemma GroupRates(sh: Shapes, init: real, s: Settings, n: int, groups: seq<Group>, i: nat)
    requires i < |groups| && Stepped(sh, init, s, n, groups).Some?
    ensures GetLr(sh, init, s.lr, n).Some? && GetWd(sh, s.wd, n).Some?
    ensures var g, r := groups[i], Stepped(sh, init, s, n, groups).value[i];
            && Multiplied(r.lr, GetLr(sh, init, s.lr, n).value, g.lrMult)
            && Multiplied(r.weightDecay, GetWd(sh, s.wd, n).value, g.wdMult)
            && r.lrMult == g.lrMult && r.wdMult == g.wdMult
  {
  }

  /** A group without multipliers under linear schedules: its rate rises on one line, falls on another and
      stays, and its weight decay rises on a third and stays. */
  lemma LinearGroupRates(sh: Shapes, init: real, s: Settings, mode: Mode, n: nat, groups: seq<Group>, i: nat)
    requires Accepted(init, s, mode) && s.lr.decayStyle == "linear" && s.wd.incrStyle == "linear" && s.wd.incrSteps > 0
    requires i < |groups| && groups[i].lrMult.None? && groups[i].wdMult.None?
    ensures Stepped(sh, init, s, n, groups).Some?
    ensures var l, lr := s.lr, Stepped(sh, init, s, n, groups).value[i].lr;
            if WarmingUp(l, n) then OnLine(lr, init, l.maxLr, n, l.warmupSteps)
            else if n <= l.decaySteps then
              OnLine(l.maxLr + l.minLr - lr, l.minLr, l.maxLr, n - l.warmupSteps, l.decaySteps - l.warmupSteps)
            else lr == l.minLr
    ensures var w, wd := s.wd, Stepped(sh, init, s, n, groups).value[i].weightDecay;
            if n <= w.incrSteps then OnLine(wd, w.startWd, w.endWd, n, w.incrSteps) else wd == w.endWd
  {
    LinearRateInRange(sh, init, s, mode, n);
    LinearWeightDecay(sh, s.wd, n);
    GroupRates(sh, init, s, n, groups, i);
    if WarmingUp(s.lr, n) {
      WarmupIsLine(sh, init, s.lr, n);
    } else {
      LinearDecay(sh, init, s.lr, n);
    }
  }

  // ----- Loading in the other modes -----

  /** A scheduler that overrides the checkpoint keeps its own settings. */
  lemma OverridingKeepsOwn(own: Settings, s: Settings, n: int)
    ensures LoadLr(Mode(false, true), own.lr, StateDict(s, n)) == Some(own.lr)
    ensures LoadWd(Mode(false, true), own.wd, StateDict(s, n)) == Some(own.wd)
  {
    SavedNumbersPresent(s, n);
    SavedStepsPresent(s, n);
    SavedDecayPresent(s, n);
  }

  /** By default a checkpoint loads exactly when it has the scheduler's own settings. */
  lemma DefaultLoadsIff(own: Settings, s: Settings, n: int)
    ensures LoadLr(Mode(false, false), own.lr, StateDict(s, n)) == if own.lr == s.lr then Some(own.lr) else None
    ensures LoadWd(Mode(false, false), own.wd, StateDict(s, n)) == if own.wd == s.wd then Some(own.wd) else None
  {
    SavedNumbersPresent(s, n);
    SavedStepsPresent(s, n);
    SavedDecayPresent(s, n);
  }

  lemma SavedNumbersPresent(s: Settings, n: int)
    ensures var sd := StateDict(s, n);
            RealAt(sd, MaxLrName(sd)) == Some(s.lr.maxLr) && RealAt(sd, "min_lr") == Some(s.lr.minLr)
  {
  }

  lemma SavedStepsPresent(s: Settings, n: int)
    ensures var sd := StateDict(s, n);
            && IntAt(sd, WarmupName(sd)) == Some(s.lr.warmupSteps) && IntAt(sd, DecayName(sd)) == Some(s.lr.decaySteps)
            && TextAt(sd, StyleName(sd)) == Some(s.lr.decayStyle)
  {
  }

  lemma SavedDecayPresent(s: Settings, n: int)
    ensures var sd := StateDict(s, n);
            && "start_wd" in sd && RealAt(sd, "start_wd") == Some(s.wd.startWd) && RealAt(sd, "end_wd") == Some(s.wd.endWd)
            && IntAt(sd, "wd_incr_steps") == Some(s.wd.incrSteps) && TextAt(sd, "wd_incr_style") == Some(s.wd.incrStyle)
  {
  }

  /** The dictionary of an older checkpoint, with either of the two older names for the steps and no
      weight decay. */
  function OlderDict(s: LrSettings, numSteps: int, oldest: bool): Dict {
    map["start_lr" := Real(s.maxLr), "min_lr" := Real(s.minLr), "decay_style" := Text(s.decayStyle), "num_iters" := Int(numSteps),
        (if oldest then "warmup_iter" else "warmup_steps") := Int(s.warmupSteps),
        (if oldest then "end_iter" else "decay_steps") := Int(s.decaySteps)]
  }

  lemma OlderNumbersPresent(s: LrSettings, n: int, oldest: bool)
    ensures var sd := OlderDict(s, n, oldest);
            && RealAt(sd, MaxLrName(sd)) == Some(s.maxLr) && RealAt(sd, "min_lr") == Some(s.minLr)
            && TextAt(sd, StyleName(sd)) == Some(s.decayStyle)
  {
  }

  lemma OlderStepsPresent(s: LrSettings, n: int, oldest: bool)
    ensures var sd := OlderDict(s, n, oldest);
            IntAt(sd, WarmupName(sd)) == Some(s.warmupSteps) && IntAt(sd, DecayName(sd)) == Some(s.decaySteps)
  {
  }

  lemma OlderCountPresent(s: LrSettings, n: int, oldest: bool)
    ensures var sd := OlderDict(s, n, oldest); SavedSteps(sd) == Some(n) && "start_wd" !in sd
  {
  }

  /** Older checkpoints bring back the same learning-rate settings and count, and leave the weight decay. */
  lemma OlderCheckpointLoads(own: Settings, s: LrSettings, n: int, oldest: bool)
    ensures LoadLr(Mode(true, false), own.lr, OlderDict(s, n, oldest)) == Some(s)
    ensures LoadWd(Mode(true, false), own.wd, OlderDict(s, n, oldest)) == Some(own.wd)
    ensures SavedSteps(OlderDict(s, n, oldest)) == Some(n)
  {
    OlderNumbersPresent(s, n, oldest);
    OlderStepsPresent(s, n, oldest);
    OlderCountPresent(s, n, oldest);
  }
}
