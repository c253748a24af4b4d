/** When the layer split can leave the last pipeline stage a negative number of layers.

    The last stage takes what the rounding of the other stages leaves.  Which shares of the last stage
    keep it from going below zero depends on the total and on the number of stages. */
module LayerMargin {
  import opened LayerSplit
  import opened RealSeqs

  ghost predicate NonNegative(split: seq<int>) {
    forall i :: 0 <= i < |split| ==> split[i] >= 0
  }

  /** `n` positive weights that sum to one and give the last stage the exact share `last`. */
  ghost predicate SharesLast(total: nat, weights: seq<real>, n: nat, last: real) {
    n > 0 && |weights| == n && Sum(weights) == 1.0 && Positive(weights) && Share(total, weights[n - 1]) == last
  }

  /** The last stage's share covers what the other stages can gain by rounding. */
  predicate CoversRounding(n: nat, last: real) {
    last > (n - 1) as real / 2.0 - 1.0
  }

  /** The other stages can gain exactly the share and one layer more: they are all in the middle between
      two numbers of layers, the upper one even and at least two, and together exceed the total by one. */
  predicate CanTie(total: nat, n: nat) {
    total % 2 == 1 && total >= 2 * n - 3
  }

  /** The shares that keep the last stage from going below zero. */
  predicate SafeShare(total: nat, n: nat, last: real) {
    || last >= (total as real - 1.0) / 2.0
    || CoversRounding(n, last)
    || (last == (n - 1) as real / 2.0 - 1.0 && !CanTie(total, n))
  }

  // ----- Safe shares -----

  ghost predicate Rounded(rs: seq<int>, xs: seq<real>) {
    |rs| == |xs| && forall i :: 0 <= i < |rs| ==> rs[i] == PyRound(xs[i])
  }

  /** A positive number is more than half of what it rounds to. */
  lemma MoreThanHalf(x: real)
    requires x > 0.0
    ensures PyRound(x) >= 0 && 2.0 * x > PyRound(x) as real
  {
    if x <= 0.5 {
      assert x.Floor == 0;
    }
  }

  lemma {:induction false} SumMoreThanHalf(rs: seq<int>, xs: seq<real>)
    requires Rounded(rs, xs) && Positive(xs)
    ensures IntSum(rs) >= 0 && (xs == [] ==> IntSum(rs) == 0) && (xs != [] ==> 2.0 * Sum(xs) > IntSum(rs) as real)
  {
    if xs != [] {
      var m := |xs| - 1;
      SumMoreThanHalf(rs[..m], xs[..m]);
      MoreThanHalf(xs[m]);
    }
  }

  /** Where rounding gains one half, the result is even, and at least two for a positive number. */
  lemma TieIsEven(x: real)
    requires x > 0.0 && PyRound(x) as real - x == 0.5
    ensures PyRound(x) % 2 == 0 && PyRound(x) >= 2
  {
    var f := x.Floor;
    assert PyRound(x) == f + 1;
  }

  /** If the roundings gain one half each, so do those of the stages before the last one, and its own. */
  lemma TiesSplit(rs: seq<int>, xs: seq<real>, m: nat)
    requires Rounded(rs, xs) && |xs| == m + 1 && IntSum(rs) as real - Sum(xs) == |xs| as real / 2.0
    ensures IntSum(rs[..m]) as real - Sum(xs[..m]) == m as real / 2.0 && rs[m] as real - xs[m] == 0.5
  {
    SumNear(rs[..m], xs[..m]);
  }

  lemma EvenSum(a: int, b: int)
    requires a % 2 == 0 && b % 2 == 0
    ensures (a + b) % 2 == 0
  {
  }

  /** If every rounding gains one half, the sum is even and at least twice the number of stages. */
  lemma {:induction false} SumOfTies(rs: seq<int>, xs: seq<real>)
    requires Rounded(rs, xs) && Positive(xs) && IntSum(rs) as real - Sum(xs) == |xs| as real / 2.0
    ensures IntSum(rs) % 2 == 0 && IntSum(rs) >= 2 * |xs|
  {
    if xs != [] {
      var m := |xs| - 1;
      TiesSplit(rs, xs, m);
      SumOfTies(rs[..m], xs[..m]);
      TieIsEven(xs[m]);
      EvenSum(IntSum(rs[..m]), rs[m]);
      assert IntSum(rs) == IntSum(rs[..m]) + rs[m];
    }
  }

  /** What a negative last stage says about the roundings of the others. */
  lemma NegativeNeedsUnsafe(total: nat, n: nat, last: real, rs: seq<int>, xs: seq<real>)
    requires n > 0 && |xs| == n - 1 && Rounded(rs, xs) && Positive(xs)
    requires Sum(xs) + last == total as real && IntSum(rs) >= total + 1
    ensures !SafeShare(total, n, last)
  {
    SumMoreThanHalf(rs, xs);
    SumNear(rs, xs);
    if last == (n - 1) as real / 2.0 - 1.0 {
      assert IntSum(rs) == total + 1;
      SumOfTies(rs, xs);
    }
  }

  /** The exact shares are positive when there is anything to split, and sum to the total. */
  lemma SharesAreExact(total: nat, weights: seq<real>)
    requires Sum(weights) == 1.0 && Positive(weights) && total > 0
    ensures Positive(Shares(total, weights)) && Sum(Shares(total, weights)) == total as real
  {
    SumShares(total, weights);
    forall i | 0 <= i < |weights| ensures Shares(total, weights)[i] > 0.0 {
      ProductPositive(total as real, weights[i]);
    }
  }

  lemma ProductPositive(x: real, y: real)
    requires x > 0.0 && y > 0.0
    ensures x * y > 0.0
  {
  }

  lemma LastStageSafe(total: nat, weights: seq<real>, split: seq<int>, n: nat, last: real)
    requires SharesLast(total, weights, n, last) && IsSplit(total, weights, split) && total > 0
    requires split[n - 1] < 0
    ensures !SafeShare(total, n, last)
  {
    var shares := Shares(total, weights);
    SharesAreExact(total, weights);
    NegativeNeedsUnsafe(total, n, last, split[..n - 1], shares[..n - 1]);
  }

  lemma {:induction false} ZeroSum(rs: seq<int>)
    requires forall i :: 0 <= i < |rs| ==> rs[i] == 0
    ensures IntSum(rs) == 0
  {
    if rs != [] {
      ZeroSum(rs[..|rs| - 1]);
    }
  }

  lemma NothingToSplit(weights: seq<real>, split: seq<int>)
    requires weights != [] && IsSplit(0, weights, split)
    ensures NonNegative(split)
  {
    ZeroSum(split[..|split| - 1]);
  }

  /** With a safe share no stage is left with a negative number of layers. */
  lemma SplitNonNegative(total: nat, weights: seq<real>, split: seq<int>, n: nat, last: real)
    requires SharesLast(total, weights, n, last) && IsSplit(total, weights, split) && SafeShare(total, n, last)
    ensures NonNegative(split)
  {
    if total == 0 {
      NothingToSplit(weights, split);
    } else {
      SharesAreExact(total, weights);
      if split[n - 1] < 0 {
        LastStageSafe(total, weights, split, n, last);
      }
      forall i | 0 <= i < n - 1 ensures split[i] >= 0 {
        MoreThanHalf(Shares(total, weights)[i]);
      }
    }
  }

  // ----- Unsafe shares -----

  function Repeat<T>(n: nat, x: T): (r: seq<T>)
    ensures |r| == n && forall i :: 0 <= i < n ==> r[i] == x
  {
    if n == 0 then [] else Repeat(n - 1, x) + [x]
  }

  /** `n` times `x`, added up. */
  function Total(n: nat, x: real): real {
    if n == 0 then 0.0 else Total(n - 1, x) + x
  }

  lemma OneMore(m: real, x: real)
    ensures (m + 1.0) * x == m * x + x
  {
  }

  lemma {:induction false} TotalIsProduct(n: nat, x: real)
    ensures Total(n, x) == n as real * x
  {
    if n > 0 {
      TotalIsProduct(n - 1, x);
      OneMore((n - 1) as real, x);
      assert (n - 1) as real + 1.0 == n as real;
    }
  }

  lemma {:induction false} SumAppendTotal(xs: seq<real>, n: nat, x: real)
    ensures Sum(xs + Repeat(n, x)) == Sum(xs) + Total(n, x)
  {
    if n == 0 {
      assert xs + Repeat(0, x) == xs;
    } else {
      SumAppendTotal(xs, n - 1, x);
      assert (xs + Repeat(n, x))[..|xs| + n - 1] == xs + Repeat(n - 1, x);
    }
  }

  lemma SumAppendRepeat(xs: seq<real>, n: nat, x: real)
    ensures Sum(xs + Repeat(n, x)) == Sum(xs) + n as real * x
  {
    SumAppendTotal(xs, n, x);
    TotalIsProduct(n, x);
  }

  lemma {:induction false} IntSumAppendRepeat(xs: seq<int>, n: nat, x: int)
    ensures IntSum(xs + Repeat(n, x)) == IntSum(xs) + n * x
  {
    if n == 0 {
      assert xs + Repeat(0, x) == xs;
    } else {
      IntSumAppendRepeat(xs, n - 1, x);
      assert (xs + Repeat(n, x))[..|xs| + n - 1] == xs + Repeat(n - 1, x);
      assert n * x == (n - 1) * x + x;
    }
  }

  lemma SumAppend(xs: seq<real>, x: real)
    ensures Sum(xs + [x]) == Sum(xs) + x
  {
    assert (xs + [x])[..|xs|] == xs;
  }

  lemma IntSumAppend(xs: seq<int>, x: int)
    ensures IntSum(xs + [x]) == IntSum(xs) + x
  {
    assert (xs + [x])[..|xs|] == xs;
  }

  /** `p` entries `x`, then `y`, then `q` entries `z`, then `last`. */
  function Pattern<T>(p: nat, x: T, y: T, q: nat, z: T, last: T): (r: seq<T>)
    ensures |r| == p + q + 2
    ensures forall i :: 0 <= i < |r| ==> r[i] == if i < p then x else if i == p then y else if i <= p + q then z else last
  {
    Repeat(p, x) + [y] + Repeat(q, z) + [last]
  }

  lemma SumPattern(p: nat, x: real, y: real, q: nat, z: real, last: real)
    ensures Sum(Pattern(p, x, y, q, z, last)) == p as real * x + y + q as real * z + last
  {
    SumAppendRepeat([], p, x);
    assert [] + Repeat(p, x) == Repeat(p, x);
    SumAppend(Repeat(p, x), y);
    SumAppendRepeat(Repeat(p, x) + [y], q, z);
    SumAppend(Repeat(p, x) + [y] + Repeat(q, z), last);
  }

  lemma IntSumPattern(p: nat, x: int, y: int, q: nat, z: int, last: int)
    ensures IntSum(Pattern(p, x, y, q, z, last)) == p * x + y + q * z + last
  {
    IntSumAppendRepeat([], p, x);
    assert [] + Repeat(p, x) == Repeat(p, x);
    IntSumAppend(Repeat(p, x), y);
    IntSumAppendRepeat(Repeat(p, x) + [y], q, z);
    IntSumAppend(Repeat(p, x) + [y] + Repeat(q, z), last);
  }

  lemma TimesQuotient(t: real, x: real)
    requires t != 0.0
    ensures t * (x / t) == x
  {
  }

  lemma QuotientPositive(x: real, t: real)
    requires t > 0.0 && x > 0.0
    ensures x / t > 0.0
  {
  }

  lemma OnlyOne(t: real, x: real)
    requires t > 0.0 && t * x == t
    ensures x == 1.0
  {
    assert t * (x - 1.0) == 0.0;
  }

  /** Any positive shares that sum to the total are the exact shares of some weights. */
  lemma WeightsOfShares(total: nat, shares: seq<real>) returns (weights: seq<real>)
    requires total > 0 && Positive(shares) && Sum(shares) == total as real
    ensures Shares(total, weights) == shares && Positive(weights) && Sum(weights) == 1.0
  {
    weights := Scaled(shares, total as real);
    forall i | 0 <= i < |shares| ensures Shares(total, weights)[i] == shares[i] && weights[i] > 0.0 {
      TimesQuotient(total as real, shares[i]);
      QuotientPositive(shares[i], total as real);
    }
    assert Shares(total, weights) == shares;
    SumShares(total, weights);
    OnlyOne(total as real, Sum(weights));
  }

  /** A pattern of shares whose roundings exceed the total by one. */
  ghost predicate Exceeds(total: nat, n: nat, last: real, p: nat, x: real, a: int, y: real, b: int, q: nat, z: real) {
    && n == p + q + 2 && total > 0 && last > 0.0 && x > 0.0 && y > 0.0 && z > 0.0
    && PyRound(x) == a && PyRound(y) == b && PyRound(z) == 0
    && p as real * x + y + q as real * z + last == total as real && p * a + b == total + 1
  }

  lemma ExceedingPattern(total: nat, n: nat, last: real, p: nat, x: real, a: int, y: real, b: int, q: nat, z: real)
      returns (weights: seq<real>, split: seq<int>)
    requires Exceeds(total, n, last, p, x, a, y, b, q, z)
    ensures SharesLast(total, weights, n, last) && IsSplit(total, weights, split) && split == Pattern(p, a, b, q, 0, -1)
  {
    var shares := Pattern(p, x, y, q, z, last);
    SumPattern(p, x, y, q, z, last);
    weights := WeightsOfShares(total, shares);
    split := Pattern(p, a, b, q, 0, -1);
    IntSumPattern(p, a, b, q, 0, -1);
    assert Share(total, weights[n - 1]) == Shares(total, weights)[n - 1];
    forall i | 0 <= i < n - 1 ensures split[i] == PyRound(Share(total, weights[i])) {
      assert Share(total, weights[i]) == Shares(total, weights)[i];
    }
  }

  lemma RoundsUp(r: int, x: real)
    requires r as real - 0.5 < x < r as real + 0.5 || (x == r as real - 0.5 && r % 2 == 0)
    ensures PyRound(x) == r
  {
    assert x.Floor == r || x.Floor == r - 1;
  }

  lemma TieSums(total: nat, n: nat, last: real)
    requires n >= 2 && last == (n - 1) as real / 2.0 - 1.0
    ensures (n - 2) as real * 1.5 + ((total + 5 - 2 * n) as real - 0.5) + 0.0 * 0.25 + last == total as real
    ensures (n - 2) * 2 + (total + 5 - 2 * n) == total + 1
  {
  }

  /** Exactly at the margin: all stages but the last tie, the first ones between one and two layers. */
  lemma TiesExceed(total: nat, n: nat, last: real, b: int)
    requires n > 0 && last > 0.0 && last == (n - 1) as real / 2.0 - 1.0 && CanTie(total, n)
    requires b == total + 5 - 2 * n
    ensures n >= 4
    ensures Exceeds(total, n, last, n - 2, 1.5, 2, b as real - 0.5, b, 0, 0.25)
  {
    RoundsUp(2, 1.5);
    RoundsUp(b, b as real - 0.5);
    RoundsUp(0, 0.25);
    TieSums(total, n, last);
  }

  /** Below the margin: `k` stages are a little above the middle, `k - 1` of them between zero and one
      layer, and the other stages take next to nothing. */
  lemma SlackExceeds(total: nat, n: nat, last: real, k: nat, d: real)
    requires n >= 2 && 0 < k <= n - 1 && k <= total + 1 && last > 0.0 && last < k as real / 2.0 - 1.0
    requires (n - 1) as real * d == k as real / 2.0 - 1.0 - last
    ensures total > 0
    ensures Exceeds(total, n, last, k - 1, 0.5 + d, 1, (total + 2 - k) as real - 0.5 + d, total + 2 - k, n - 1 - k, d)
  {
    var m := (n - 1) as real;
    SlackBounds(m, d, k as real / 2.0 - 1.0 - last);
    RoundsUp(1, 0.5 + d);
    RoundsUp(total + 2 - k, (total + 2 - k) as real - 0.5 + d);
    RoundsUp(0, d);
    SlackSum(k as real, m, d);
  }

  lemma SlackBounds(m: real, d: real, e: real)
    requires m >= 1.0 && m * d == e && 0.0 < e < m / 2.0
    ensures 0.0 < d < 0.5
  {
    PositiveFactor(m, d);
    Distribute(m, 0.5, -d);
    PositiveFactor(m, 0.5 - d);
  }

  lemma PositiveFactor(m: real, d: real)
    requires m > 0.0 && m * d > 0.0
    ensures d > 0.0
  {
  }

  lemma SlackSum(k: real, m: real, d: real)
    ensures (k - 1.0) * (0.5 + d) + d + (m - k) * d == (k - 1.0) / 2.0 + m * d
  {
  }

  lemma NegativeByTies(total: nat, n: nat, last: real) returns (weights: seq<real>, split: seq<int>)
    requires n > 0 && last > 0.0 && last == (n - 1) as real / 2.0 - 1.0 && CanTie(total, n)
    ensures SharesLast(total, weights, n, last) && IsSplit(total, weights, split) && split[n - 1] == -1
  {
    var b := total + 5 - 2 * n;
    TiesExceed(total, n, last, b);
    weights, split := ExceedingPattern(total, n, last, n - 2, 1.5, 2, b as real - 0.5, b, 0, 0.25);
  }

  lemma NegativeBySlack(total: nat, n: nat, last: real, k: nat) returns (weights: seq<real>, split: seq<int>)
    requires n >= 2 && 0 < k <= n - 1 && k <= total + 1 && last > 0.0 && last < k as real / 2.0 - 1.0
    ensures SharesLast(total, weights, n, last) && IsSplit(total, weights, split) && split[n - 1] == -1
  {
    var e := k as real / 2.0 - 1.0 - last;
    var d := e / (n - 1) as real;
    TimesQuotient((n - 1) as real, e);
    SlackExceeds(total, n, last, k, d);
    weights, split := ExceedingPattern(total, n, last, k - 1, 0.5 + d, 1, (total + 2 - k) as real - 0.5 + d, total + 2 - k,
                                       n - 1 - k, d);
  }

  /** With any other share, some weights leave the last stage a negative number of layers. */
  lemma LastStageCanBeNegative(total: nat, n: nat, last: real) returns (weights: seq<real>, split: seq<int>)
    requires n > 0 && last > 0.0 && !SafeShare(total, n, last)
    ensures SharesLast(total, weights, n, last) && IsSplit(total, weights, split) && split[n - 1] == -1
  {
    if last == (n - 1) as real / 2.0 - 1.0 {
      weights, split := NegativeByTies(total, n, last);
    } else {
      weights, split := NegativeBySlack(total, n, last, if n - 1 <= total + 1 then n - 1 else total + 1);
    }
  }

  // ----- The exact condition -----

  /** For every total, number of stages and share of the last one: no positive weighting with that last
      share leaves a stage negative exactly when the share is safe. */
  lemma SafeShareIff(total: nat, n: nat, last: real)
    requires n > 0 && last > 0.0
    ensures (forall weights, split :: SharesLast(total, weights, n, last) && IsSplit(total, weights, split) ==> NonNegative(split))
            <==> SafeShare(total, n, last)
  {
    if SafeShare(total, n, last) {
      forall weights, split | SharesLast(total, weights, n, last) && IsSplit(total, weights, split)
        ensures NonNegative(split)
      {
        SplitNonNegative(total, weights, split, n, last);
      }
    } else {
      var weights, split := LastStageCanBeNegative(total, n, last);
    }
  }

  /** Whatever the total: no positive weighting with that last share leaves a stage negative exactly when
      the share covers what the other stages can gain by rounding. */
  lemma NeverNegativeIff(n: nat, last: real)
    requires n > 0 && last > 0.0
    ensures (forall total: nat, weights, split ::
              SharesLast(total, weights, n, last) && IsSplit(total, weights, split) ==> NonNegative(split))
            <==> CoversRounding(n, last)
  {
    if CoversRounding(n, last) {
      forall total: nat, weights, split | SharesLast(total, weights, n, last) && IsSplit(total, weights, split)
        ensures NonNegative(split)
      {
        SplitNonNegative(total, weights, split, n, last);
      }
    } else {
      assert n >= 4 && !SafeShare(2 * n - 3, n, last);
      var weights, split := LastStageCanBeNegative(2 * n - 3, n, last);
    }
  }

  /** For instance, five layers in shares of one and a half, one and a half, one and a half and a half. */
  lemma NegativeSplitExample()
    ensures exists weights :: SharesLast(5, weights, 4, 0.5) && IsSplit(5, weights, [2, 2, 2, -1])
  {
    TiesExceed(5, 4, 0.5, 2);
    var weights, split := ExceedingPattern(5, 4, 0.5, 2, 1.5, 2, 1.5, 2, 0, 0.25);
    assert split == [2, 2, 2, -1];
  }
}
