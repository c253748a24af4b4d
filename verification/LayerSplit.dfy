/** Splitting the layers of a model over its pipeline stages by measured communication time, and
    publishing the split.  Ratios are exact reals. */
module LayerSplit {
  import opened TaskText
  import opened RealSeqs

  // ----- Weights -----

  function Sum(xs: seq<real>): real {
    if xs == [] then 0.0 else Sum(xs[..|xs| - 1]) + xs[|xs| - 1]
  }

  function IntSum(xs: seq<int>): int {
    if xs == [] then 0 else IntSum(xs[..|xs| - 1]) + xs[|xs| - 1]
  }

  function Inverses(xs: seq<real>): (r: seq<real>)
    requires Positive(xs)
    ensures |r| == |xs| && Positive(r)
  {
    seq(|xs|, i requires 0 <= i < |xs| => 1.0 / xs[i])
  }

  function Scaled(xs: seq<real>, d: real): (r: seq<real>)
    requires d > 0.0
    ensures |r| == |xs|
  {
    seq(|xs|, i requires 0 <= i < |xs| => xs[i] / d)
  }

  lemma {:induction false} SumPositive(xs: seq<real>)
    requires Positive(xs)
    ensures Sum(xs) >= 0.0 && (xs != [] ==> Sum(xs) > 0.0)
  {
    if xs != [] {
      SumPositive(xs[..|xs| - 1]);
    }
  }

  lemma {:induction false} SumScaled(xs: seq<real>, d: real)
    requires d > 0.0
    ensures Sum(Scaled(xs, d)) == Sum(xs) / d
  {
    if xs != [] {
      var n := |xs| - 1;
      SumScaled(xs[..n], d);
      assert Scaled(xs, d)[..n] == Scaled(xs[..n], d);
    }
  }

  /** The stage weights: throughputs, the inverses of the latencies, scaled to sum to one. */
  function Weights(latencies: seq<real>): (w: seq<real>)
    requires latencies != [] && Positive(latencies)
    ensures |w| == |latencies| && Sum(w) == 1.0 && Positive(w)
  {
    var inv := Inverses(latencies);
    SumPositive(inv);
    SumScaled(inv, Sum(inv));
    Scaled(inv, Sum(inv))
  }

  lemma InverseTimes(x: real, d: real)
    requires x > 0.0 && d > 0.0
    ensures 1.0 / x / d * x == 1.0 / d
  {
    assert 1.0 / x * x == 1.0;
    assert 1.0 / x / d * x == 1.0 / x * x / d;
  }

  /** Weights are inversely proportional to the latencies; as they sum to one, this determines them. */
  lemma WeightsAreInverse(latencies: seq<real>, i: nat, j: nat)
    requires latencies != [] && Positive(latencies) && i < |latencies| && j < |latencies|
    ensures Weights(latencies)[i] * latencies[i] == Weights(latencies)[j] * latencies[j]
  {
    var inv := Inverses(latencies);
    SumPositive(inv);
    InverseTimes(latencies[i], Sum(inv));
    InverseTimes(latencies[j], Sum(inv));
  }

  lemma LargerPartner(x: real, y: real, a: real, b: real)
    requires 0.0 < a <= b && y > 0.0 && x * a == y * b
    ensures x >= y
  {
    assert (x - y) * a == y * (b - a) >= 0.0;
    NonNegativeFactor(x - y, a);
  }

  lemma NonNegativeFactor(x: real, d: real)
    requires d > 0.0 && x * d >= 0.0
    ensures x >= 0.0
  {
  }

  /** A stage with a smaller latency has at least as much weight. */
  lemma FasterWeighsMore(latencies: seq<real>, i: nat, j: nat)
    requires latencies != [] && Positive(latencies) && i < |latencies| && j < |latencies| && latencies[i] <= latencies[j]
    ensures Weights(latencies)[i] >= Weights(latencies)[j]
  {
    WeightsAreInverse(latencies, i, j);
    LargerPartner(Weights(latencies)[i], Weights(latencies)[j], latencies[i], latencies[j]);
  }

  // ----- The split -----

  /** Python's `round`: the nearest integer, ties to even. */
  function PyRound(x: real): (r: int)
    ensures -0.5 <= r as real - x <= 0.5
    ensures x - x.Floor as real == 0.5 ==> r % 2 == 0
  {
    var f := x.Floor;
    if x - f as real < 0.5 then f
    else if x - f as real > 0.5 then f + 1
    else if f % 2 == 0 then f else f + 1
  }

  function Share(total: int, weight: real): real {
    total as real * weight
  }

  function LastStage(weights: seq<real>): nat {
    if weights == [] then 0 else |weights| - 1
  }

  function Shares(total: int, weights: seq<real>): (r: seq<real>)
    ensures |r| == |weights|
  {
    seq(|weights|, i requires 0 <= i < |weights| => Share(total, weights[i]))
  }

  lemma Distribute(t: real, x: real, y: real)
    ensures t * (x + y) == t * x + t * y
  {
  }

  lemma {:induction false} SumShares(total: int, weights: seq<real>)
    ensures Sum(Shares(total, weights)) == total as real * Sum(weights)
  {
    if weights != [] {
      var n := |weights| - 1;
      SumShares(total, weights[..n]);
      assert Shares(total, weights)[..n] == Shares(total, weights[..n]);
      Distribute(total as real, Sum(weights[..n]), weights[n]);
    }
  }

  /** Roundings of at most one half each add up. */
  lemma {:induction false} SumNear(split: seq<int>, shares: seq<real>)
    requires |split| == |shares| && forall i :: 0 <= i < |split| ==> -0.5 <= split[i] as real - shares[i] <= 0.5
    ensures -(|split| as real / 2.0) <= IntSum(split) as real - Sum(shares) <= |split| as real / 2.0
  {
    var n := |split| - 1;
    if split != [] {
      SumNear(split[..n], shares[..n]);
    }
  }

  /** What is left for the last stage is off by no more than the roundings of the others. */
  lemma RestNear(split: seq<int>, shares: seq<real>, n: nat)
    requires |split| == |shares| == n + 1 && IntSum(split) as real == Sum(shares)
    requires forall i :: 0 <= i < n ==> -0.5 <= split[i] as real - shares[i] <= 0.5
    ensures -(n as real / 2.0) <= split[n] as real - shares[n] <= n as real / 2.0
  {
    SumNear(split[..n], shares[..n]);
  }

  /** The stages sum to the total; every stage but the last is its share, rounded. */
  ghost predicate IsSplit(total: int, weights: seq<real>, split: seq<int>) {
    && |split| == LastStage(weights) + 1 && IntSum(split) == total
    && forall i :: 0 <= i < LastStage(weights) ==> split[i] == PyRound(Share(total, weights[i]))
  }

  method SplitLayers(total: int, weights: seq<real>) returns (split: seq<int>)
    ensures IsSplit(total, weights, split)
  {
    split := [];
    for i := 0 to LastStage(weights)
      invariant |split| == i
      invariant forall k :: 0 <= k < i ==> split[k] == PyRound(Share(total, weights[k]))
    {
      split := split + [PyRound(Share(total, weights[i]))];
    }
    var last := total - IntSum(split);
    assert (split + [last])[..|split|] == split;
    split := split + [last];
  }

  /** Every stage but the last is within half a layer of its exact share, and the last, which takes what
      is left, within half a layer for each of the other stages. */
  lemma SplitNearShares(total: int, weights: seq<real>, split: seq<int>, i: nat)
    requires weights != [] && Sum(weights) == 1.0 && IsSplit(total, weights, split) && i < |split|
    ensures i < |split| - 1 ==> -0.5 <= split[i] as real - Share(total, weights[i]) <= 0.5
    ensures i == |split| - 1 ==>
      var slack := (|split| - 1) as real / 2.0; -slack <= split[i] as real - Share(total, weights[i]) <= slack
  {
    var n := |split| - 1;
    if i == n {
      SumShares(total, weights);
      RestNear(split, Shares(total, weights), n);
    }
  }

  lemma RoundInOrder(x: real, y: real)
    requires x <= y
    ensures PyRound(x) <= PyRound(y)
  {
    assert x.Floor <= y.Floor;
  }

  lemma SharesInOrder(total: nat, w: real, v: real)
    requires w <= v
    ensures Share(total, w) <= Share(total, v)
  {
    assert total as real * (v - w) >= 0.0;
    Distribute(total as real, v, -w);
  }

  /** Of two stages before the last, the one with the smaller latency never gets fewer layers. */
  lemma FasterGetsMore(total: nat, latencies: seq<real>, split: seq<int>, i: nat, j: nat)
    requires latencies != [] && Positive(latencies) && IsSplit(total, Weights(latencies), split)
    requires i < |latencies| - 1 && j < |latencies| - 1 && latencies[i] <= latencies[j]
    ensures split[i] >= split[j]
  {
    FasterWeighsMore(latencies, i, j);
    SharesInOrder(total, Weights(latencies)[j], Weights(latencies)[i]);
    RoundInOrder(Share(total, Weights(latencies)[j]), Share(total, Weights(latencies)[i]));
  }

  // ----- Publishing the split -----

  function OffsetKey(stage: nat): string {
    "pp_offset_" + Decimal(stage)
  }

  function LayersKey(stage: nat): string {
    "pp_num_layers_" + Decimal(stage)
  }

  lemma KeysDiffer(i: nat, j: nat)
    ensures OffsetKey(i) != LayersKey(j)
    ensures OffsetKey(i) == OffsetKey(j) ==> i == j
    ensures LayersKey(i) == LayersKey(j) ==> i == j
  {
    assert OffsetKey(i)[3] == 'o' && LayersKey(j)[3] == 'n';
    assert OffsetKey(i)[10..] == Decimal(i) && OffsetKey(j)[10..] == Decimal(j);
    assert LayersKey(i)[14..] == Decimal(i) && LayersKey(j)[14..] == Decimal(j);
    NumeralRoundTrip(i);
    NumeralRoundTrip(j);
  }

  /** The first n stages are published: each with its number of layers and with the layers before it. */
  ghost predicate Published(values: map<string, int>, split: seq<int>, n: nat)
    requires n <= |split|
  {
    forall i :: 0 <= i < n ==> PublishedAt(values, split, i)
  }

  ghost predicate IsStageKey(key: string, n: nat) {
    exists i :: 0 <= i < n && (key == OffsetKey(i) || key == LayersKey(i))
  }

  /** The keys of stage `n` are none of the keys of an earlier stage. */
  lemma KeysAreNew(n: nat, i: nat)
    requires i < n
    ensures OffsetKey(n) != OffsetKey(i) && OffsetKey(n) != LayersKey(i)
    ensures LayersKey(n) != OffsetKey(i) && LayersKey(n) != LayersKey(i)
  {
    KeysDiffer(n, i);
    KeysDiffer(i, n);
  }

  /** What is published for stage `i`. */
  ghost predicate PublishedAt(values: map<string, int>, split: seq<int>, i: nat)
    requires i < |split|
  {
    && OffsetKey(i) in values && values[OffsetKey(i)] == IntSum(split[..i])
    && LayersKey(i) in values && values[LayersKey(i)] == split[i]
  }

  lemma PublishOne(values: map<string, int>, split: seq<int>, n: nat, offset: int)
    requires n < |split| && Published(values, split, n) && offset == IntSum(split[..n])
    ensures Published(values[OffsetKey(n) := offset][LayersKey(n) := split[n]], split, n + 1)
  {
    var values' := values[OffsetKey(n) := offset][LayersKey(n) := split[n]];
    KeysDiffer(n, n);
    forall i | 0 <= i < n + 1 ensures PublishedAt(values', split, i) {
      if i < n {
        assert PublishedAt(values, split, i);
        KeysAreNew(n, i);
      }
    }
  }

  class Store {
    var values: map<string, int>

    /** `apply_layer_split`. */
    method ApplyLayerSplit(split: seq<int>)
      modifies this
      ensures Published(values, split, |split|)
      ensures forall key :: !IsStageKey(key, |split|) ==>
                (key in values <==> key in old(values)) && (key in values ==> values[key] == old(values)[key])
    {
      var offset := 0;
      for i := 0 to |split|
        invariant offset == IntSum(split[..i]) && Published(values, split, i)
        invariant forall key :: !IsStageKey(key, i) ==>
                    (key in values <==> key in old(values)) && (key in values ==> values[key] == old(values)[key])
      {
        PublishOne(values, split, i, offset);
        values := values[OffsetKey(i) := offset];
        values := values[LayersKey(i) := split[i]];
        offset := offset + split[i];
        assert split[..i + 1][..i] == split[..i];
        assert forall key :: IsStageKey(key, i) ==> IsStageKey(key, i + 1);
        assert IsStageKey(OffsetKey(i), i + 1) && IsStageKey(LayersKey(i), i + 1);
      }
      assert split[..|split|] == split;
    }
  }

  /** Published stages abut: each starts where the one before it ends, the first at zero, and the last
      ends at the total. */
  lemma PublishedStagesAbut(values: map<string, int>, total: int, weights: seq<real>, split: seq<int>, i: nat)
    requires IsSplit(total, weights, split) && Published(values, split, |split|) && i < |split|
    ensures OffsetKey(i) in values && LayersKey(i) in values
    ensures i == 0 ==> values[OffsetKey(i)] == 0
    ensures i + 1 < |split| ==>
              OffsetKey(i + 1) in values && values[OffsetKey(i)] + values[LayersKey(i)] == values[OffsetKey(i + 1)]
    ensures i + 1 == |split| ==> values[OffsetKey(i)] + values[LayersKey(i)] == total
  {
    assert split[..i + 1][..i] == split[..i];
    assert PublishedAt(values, split, i);
    if i + 1 == |split| {
      assert split[..i + 1] == split;
    } else {
      assert PublishedAt(values, split, i + 1);
    }
  }

  /** `adjust_pipeline_parallel` after the communication times are known. */
  method AdjustPipeline(store: Store, total: int, latencies: seq<real>) returns (split: seq<int>)
    requires latencies != [] && Positive(latencies)
    modifies store
    ensures |split| == |latencies| && IsSplit(total, Weights(latencies), split) && Published(store.values, split, |split|)
    ensures total >= 0 ==>
              forall i, j :: 0 <= i < |split| - 1 && 0 <= j < |split| - 1 && latencies[i] <= latencies[j] ==> split[i] >= split[j]
  {
    split := SplitLayers(total, Weights(latencies));
    store.ApplyLayerSplit(split);
    forall i, j | total >= 0 && 0 <= i < |split| - 1 && 0 <= j < |split| - 1 && latencies[i] <= latencies[j]
      ensures split[i] >= split[j]
    {
      FasterGetsMore(total, latencies, split, i, j);
    }
  }
}
