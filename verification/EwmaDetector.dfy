/** Online mean and variance of the anomaly detector, in exact reals, and the weighted mean and variance
    of the whole sample history that they equal. */
module EwmaDetector {
  import opened Types

  datatype State = State(mean: real, variance: real, samples: nat)

  const VARIANCE_FLOOR: real := 0.000000001

  // ----- the batch definition -----

  function Product(a: real, b: real): real {
    a * b
  }

  /** The square root the detector calls, exact and total on what is not negative. */
  ghost predicate IsRoot(sqrt: real -> real) {
    forall v :: v >= 0.0 ==> sqrt(v) >= 0.0 && Product(sqrt(v), sqrt(v)) == v
  }

  function Floored(variance: real): (v: real)
    ensures v >= VARIANCE_FLOOR && v >= variance && (v == variance || v == VARIANCE_FLOOR)
  {
    if variance > VARIANCE_FLOOR then variance else VARIANCE_FLOOR
  }

  lemma RootPositive(sqrt: real -> real, v: real)
    requires IsRoot(sqrt) && v > 0.0
    ensures sqrt(v) > 0.0
  {
    assert Product(sqrt(v), sqrt(v)) == v;
  }

  function ZScore(sqrt: real -> real, value: real, state: State): real
    requires IsRoot(sqrt)
  {
    RootPositive(sqrt, Floored(state.variance));
    (value - state.mean) / sqrt(Floored(state.variance))
  }

  /** A score is the distance from the mean in standard deviations, with the mean's side as its sign. */
  lemma ScoreIsDistance(sqrt: real -> real, value: real, state: State)
    requires IsRoot(sqrt)
    ensures var z, d := ZScore(sqrt, value, state), value - state.mean;
      var v := if state.variance > 0.000000001 then state.variance else 0.000000001;
      && Product(Product(z, z), v) == Product(d, d)
      && (z > 0.0 <==> d > 0.0) && (z == 0.0 <==> d == 0.0)
  {
    hide IsRoot;
    var v := Floored(state.variance);
    RootPositive(sqrt, v);
    RootOf(sqrt, v);
    Ratio(ZScore(sqrt, value, state), value - state.mean, sqrt(v));
  }

  lemma RootOf(sqrt: real -> real, v: real)
    requires IsRoot(sqrt) && v >= 0.0
    ensures Product(sqrt(v), sqrt(v)) == v
  {
  }

  lemma Ratio(z: real, d: real, r: real)
    requires r > 0.0 && z == d / r
    ensures Product(Product(z, z), Product(r, r)) == Product(d, d)
    ensures (z > 0.0 <==> d > 0.0) && (z == 0.0 <==> d == 0.0)
  {
    assert z * r == d;
    assert (z * z) * (r * r) == (z * r) * (z * r);
  }

  function Scale(w: seq<real>, c: real): (r: seq<real>)
    ensures |r| == |w|
  {
    seq(|w|, i requires 0 <= i < |w| => Product(c, w[i]))
  }

  /** The weights of n samples: each new sample takes alpha of the weight from all before it. */
  function Weights(alpha: real, n: nat): (w: seq<real>)
    requires n > 0
    ensures |w| == n
  {
    if n == 1 then [1.0] else Scale(Weights(alpha, n - 1), 1.0 - alpha) + [alpha]
  }

  function Total(w: seq<real>): real {
    if w == [] then 0.0 else Total(w[..|w| - 1]) + w[|w| - 1]
  }

  function WeightedSum(w: seq<real>, x: seq<real>): real
    requires |w| == |x|
  {
    if w == [] then 0.0 else WeightedSum(w[..|w| - 1], x[..|x| - 1]) + Product(w[|w| - 1], x[|x| - 1])
  }

  /** The weighted sum of squared distances from c. */
  function Spread(w: seq<real>, x: seq<real>, c: real): real
    requires |w| == |x|
  {
    if w == [] then 0.0
    else
      var d := x[|x| - 1] - c;
      Spread(w[..|w| - 1], x[..|x| - 1], c) + Product(w[|w| - 1], Product(d, d))
  }

  /** Mean and variance of a sample history under its weights. */
  function Batch(alpha: real, x: seq<real>): State {
    if x == [] then State(0.0, 0.0, 0)
    else
      var w := Weights(alpha, |x|);
      State(WeightedSum(w, x), Spread(w, x, WeightedSum(w, x)), |x|)
  }

  /** The online update of mean and variance by one more sample. */
  function Moved(alpha: real, state: State, value: real): State {
    var delta := value - state.mean;
    State(state.mean + Product(alpha, delta),
          Product(1.0 - alpha, state.variance + Product(Product(alpha, delta), delta)),
          state.samples + 1)
  }

  // ----- the detector -----

  class EwmaZScoreDetector {
    const alpha: real
    const minSamples: nat
    const sqrt: real -> real
    var states: map<string, State>
    /** All samples scored so far, by feature. */
    ghost var history: map<string, seq<real>>

    ghost predicate Valid()
      reads this
    {
      states.Keys == history.Keys && forall f :: f in states ==> states[f] == Batch(alpha, history[f])
    }

    ghost function Samples(feature: string): seq<real>
      reads this
    {
      if feature in history then history[feature] else []
    }

    constructor (alpha: real, minSamples: nat, sqrt: real -> real)
      ensures Valid() && history == map[]
      ensures this.alpha == alpha && this.minSamples == minSamples && this.sqrt == sqrt
    {
      this.alpha, this.minSamples, this.sqrt := alpha, minSamples, sqrt;
      states, history := map[], map[];
    }

    /** Scores a sample against the history before it, then takes it into the history. */
    method ScoreSample(feature: string, value: real) returns (score: Option<real>)
      requires Valid() && IsRoot(sqrt)
      modifies this
      ensures Valid()
      ensures history == old(history)[feature := old(Samples(feature)) + [value]]
      ensures var before := Batch(alpha, old(Samples(feature)));
        score == if before.samples >= minSamples then Some(ZScore(sqrt, value, before)) else None
    {
      hide Batch, Product, Floored, Moved;
      ghost var x := Samples(feature);
      EmptyBatch(alpha);
      var state := if feature in states then states[feature] else State(0.0, 0.0, 0);
      score := None;
      if state.samples >= minSamples {
        RootPositive(sqrt, Floored(state.variance));
        score := Some((value - state.mean) / sqrt(Floored(state.variance)));
      }
      BatchSamples(alpha, x);
      OnlineIsBatch(alpha, x, value);
      if state.samples == 0 {
        state := State(value, 0.0, 1);
      } else {
        state := Moved(alpha, state, value);
      }
      states := states[feature := state];
      history := history[feature := x + [value]];
    }

    method Reset()
      modifies this
      ensures Valid() && history == map[]
    {
      states, history := map[], map[];
    }
  }

  lemma EmptyBatch(alpha: real)
    ensures Batch(alpha, []) == State(0.0, 0.0, 0)
  {
  }

  lemma BatchSamples(alpha: real, x: seq<real>)
    ensures Batch(alpha, x).samples == |x|
  {
  }

  // ----- products; the lemmas on sums keep them folded -----

  lemma Distribute(c: real, s: real, a: real)
    ensures Product(c, s + a) == Product(c, s) + Product(c, a)
  {
  }

  lemma Reassociate(c: real, a: real, b: real)
    ensures Product(Product(c, a), b) == Product(c, Product(a, b))
  {
  }

  lemma Trivial(c: real)
    ensures Product(c, 0.0) == 0.0 && Product(c, 1.0) == c && Product(1.0, c) == c
  {
  }

  // ----- online equals batch -----

  lemma ScaleInit(w: seq<real>, c: real)
    requires w != []
    ensures Scale(w, c)[..|w| - 1] == Scale(w[..|w| - 1], c)
  {
    hide Product;
  }

  lemma {:induction false} ScaleSums(w: seq<real>, x: seq<real>, c: real)
    requires |w| == |x|
    ensures Total(Scale(w, c)) == Product(c, Total(w))
    ensures WeightedSum(Scale(w, c), x) == Product(c, WeightedSum(w, x))
  {
    hide Product;
    if w == [] {
      Trivial(c);
    } else {
      var v, y := w[..|w| - 1], x[..|x| - 1];
      var a, b := w[|w| - 1], x[|x| - 1];
      ScaleSums(v, y, c);
      ScaleInit(w, c);
      Reassociate(c, a, b);
      Distribute(c, WeightedSum(v, y), Product(a, b));
      Distribute(c, Total(v), a);
    }
  }

  lemma TotalAppend(w: seq<real>, a: real)
    ensures Total(w + [a]) == Total(w) + a
  {
    assert (w + [a])[..|w|] == w;
  }

  lemma {:induction false} WeightsTotal(alpha: real, n: nat)
    requires n > 0
    ensures Total(Weights(alpha, n)) == 1.0
  {
    hide Product, Scale;
    if n == 1 {
      assert [] + [1.0] == [1.0];
      TotalAppend([], 1.0);
    } else {
      var w := Weights(alpha, n - 1);
      WeightsTotal(alpha, n - 1);
      ScaleSums(w, w, 1.0 - alpha);
      TotalAppend(Scale(w, 1.0 - alpha), alpha);
      Trivial(1.0 - alpha);
    }
  }

  function Squares(x: seq<real>): (y: seq<real>)
    ensures |y| == |x|
  {
    seq(|x|, i requires 0 <= i < |x| => Product(x[i], x[i]))
  }

  lemma SquaresInit(x: seq<real>)
    requires x != []
    ensures Squares(x)[..|x| - 1] == Squares(x[..|x| - 1])
  {
    hide Product;
  }

  /** q - 2 c m + c c t. */
  function Moments(c: real, q: real, m: real, t: real): real {
    q - 2.0 * Product(c, m) + Product(Product(c, c), t)
  }

  /** The spread about any point, from the first two moments. */
  lemma {:induction false} SpreadMoments(w: seq<real>, x: seq<real>, c: real)
    requires |w| == |x|
    ensures Spread(w, x, c) == Moments(c, WeightedSum(w, Squares(x)), WeightedSum(w, x), Total(w))
  {
    hide Product, Squares, Moments;
    if w == [] {
      NoMoments(c);
    } else {
      var v, y := w[..|w| - 1], x[..|x| - 1];
      SpreadMoments(v, y, c);
      SquaresInit(x);
      LastSquare(x);
      OneMoment(w[|w| - 1], x[|x| - 1], c, WeightedSum(v, Squares(y)), WeightedSum(v, y), Total(v));
    }
  }

  lemma LastSquare(x: seq<real>)
    requires x != []
    ensures Squares(x)[|x| - 1] == Product(x[|x| - 1], x[|x| - 1])
  {
  }

  lemma NoMoments(c: real)
    ensures Moments(c, 0.0, 0.0, 0.0) == 0.0
  {
  }

  lemma OneMoment(a: real, b: real, c: real, q: real, m: real, t: real)
    ensures Moments(c, q, m, t) + Product(a, Product(b - c, b - c))
         == Moments(c, q + Product(a, Product(b, b)), m + Product(a, b), t + a)
  {
    hide Product;
    SquareOfDifference(b, c);
    Distribute3(a, Product(b, b), Product(c, b), Product(c, c));
    Exchange(a, c, b);
    Commute(a, Product(c, c));
    Distribute(c, m, Product(a, b));
    Distribute(Product(c, c), t, a);
  }

  lemma SquareOfDifference(b: real, c: real)
    ensures Product(b - c, b - c) == Product(b, b) - 2.0 * Product(c, b) + Product(c, c)
  {
  }

  lemma Distribute3(a: real, x: real, y: real, z: real)
    ensures Product(a, x - 2.0 * y + z) == Product(a, x) - 2.0 * Product(a, y) + Product(a, z)
  {
  }

  lemma Commute(a: real, b: real)
    ensures Product(a, b) == Product(b, a)
  {
  }

  lemma SumAppend(w: seq<real>, x: seq<real>, a: real, b: real)
    requires |w| == |x|
    ensures WeightedSum(w + [a], x + [b]) == WeightedSum(w, x) + Product(a, b)
  {
    hide Product;
    assert (w + [a])[..|w|] == w && (x + [b])[..|x|] == x;
  }

  lemma SquaresAppend(x: seq<real>, v: real)
    ensures Squares(x + [v]) == Squares(x) + [Product(v, v)]
  {
    hide Product;
  }

  /** A sample appended to a history moves its moments. */
  lemma AppendMoments(alpha: real, x: seq<real>, value: real)
    requires x != []
    ensures var w, w' := Weights(alpha, |x|), Weights(alpha, |x| + 1);
      && WeightedSum(w', x + [value]) == Product(1.0 - alpha, WeightedSum(w, x)) + Product(alpha, value)
      && WeightedSum(w', Squares(x + [value]))
           == Product(1.0 - alpha, WeightedSum(w, Squares(x))) + Product(alpha, Product(value, value))
  {
    hide WeightedSum, Scale, Squares, Product;
    var w := Weights(alpha, |x|);
    ScaleSums(w, x, 1.0 - alpha);
    ScaleSums(w, Squares(x), 1.0 - alpha);
    SumAppend(Scale(w, 1.0 - alpha), x, alpha, value);
    SquaresAppend(x, value);
    SumAppend(Scale(w, 1.0 - alpha), Squares(x), alpha, Product(value, value));
  }

  lemma VarianceAlgebra(alpha: real, q: real, m: real, v: real)
    ensures var m' := Product(1.0 - alpha, m) + Product(alpha, v);
      Product(1.0 - alpha, q) + Product(alpha, Product(v, v)) - Product(m', m')
        == Product(1.0 - alpha, q - Product(m, m) + Product(Product(alpha, v - m), v - m))
  {
    var b := 1.0 - alpha;
    var m' := b * m + alpha * v;
    var mm, mv, vv := m * m, m * v, v * v;
    assert m' * m' == (b * b) * mm + 2.0 * (alpha * b) * mv + (alpha * alpha) * vv by {
      assert m' * m' == b * m * (b * m) + 2.0 * (b * m * (alpha * v)) + alpha * v * (alpha * v);
    }
    assert (v - m) * (v - m) == vv - 2.0 * mv + mm;
    assert alpha * (v - m) * (v - m) == alpha * vv - 2.0 * (alpha * mv) + alpha * mm by {
      assert alpha * (v - m) * (v - m) == alpha * ((v - m) * (v - m));
    }
    assert alpha * alpha == alpha - alpha * b;
    assert (alpha * alpha) * vv == alpha * vv - (alpha * b) * vv;
    assert b * b == b - alpha * b;
    assert (b * b) * mm == b * mm - (alpha * b) * mm;
    assert b * (alpha * vv - 2.0 * (alpha * mv) + alpha * mm)
        == (alpha * b) * vv - 2.0 * (alpha * b) * mv + (alpha * b) * mm;
  }

  /** The variance of the longer history, from the moments of the shorter. */
  lemma MomentsUpdate(alpha: real, q: real, m: real, v: real)
    ensures var b := 1.0 - alpha;
      var q', m' := Product(b, q) + Product(alpha, Product(v, v)), Product(b, m) + Product(alpha, v);
      && m' == m + Product(alpha, v - m)
      && Moments(m', q', m', 1.0) == Product(b, Moments(m, q, m, 1.0) + Product(Product(alpha, v - m), v - m))
  {
    hide Product, Moments;
    var b := 1.0 - alpha;
    var q', m' := Product(b, q) + Product(alpha, Product(v, v)), Product(b, m) + Product(alpha, v);
    MeanAlgebra(alpha, m, v);
    VarianceAlgebra(alpha, q, m, v);
    AboutMean(q, m);
    AboutMean(q', m');
  }

  lemma MeanAlgebra(alpha: real, m: real, v: real)
    ensures Product(1.0 - alpha, m) + Product(alpha, v) == m + Product(alpha, v - m)
  {
  }

  lemma AboutMean(q: real, m: real)
    ensures Moments(m, q, m, 1.0) == q - Product(m, m)
  {
  }

  /** One online update of the batch state of a history is the batch state of the longer history. */
  lemma OnlineIsBatch(alpha: real, x: seq<real>, value: real)
    ensures Batch(alpha, x + [value])
         == if x == [] then State(value, 0.0, 1) else Moved(alpha, Batch(alpha, x), value)
  {
    hide WeightedSum, Squares, Spread, Total, Moments, Product, Scale, Weights, Batch;
    if x == [] {
      SingleSample(alpha, value);
    } else {
      LongerHistory(alpha, x, value);
      BatchIs(alpha, x);
      BatchIs(alpha, x + [value]);
    }
  }

  lemma BatchIs(alpha: real, x: seq<real>)
    requires x != []
    ensures var w := Weights(alpha, |x|);
      Batch(alpha, x) == State(WeightedSum(w, x), Spread(w, x, WeightedSum(w, x)), |x|)
  {
  }

  lemma LongerHistory(alpha: real, x: seq<real>, value: real)
    requires x != []
    ensures var x' := x + [value];
      var w, w' := Weights(alpha, |x|), Weights(alpha, |x'|);
      var delta := value - WeightedSum(w, x);
      && WeightedSum(w', x') == WeightedSum(w, x) + Product(alpha, delta)
      && Spread(w', x', WeightedSum(w', x'))
           == Product(1.0 - alpha, Spread(w, x, WeightedSum(w, x)) + Product(Product(alpha, delta), delta))
  {
    hide WeightedSum, Squares, Spread, Total, Moments, Product, Scale, Weights;
    var w, w' := Weights(alpha, |x|), Weights(alpha, |x| + 1);
    var x' := x + [value];
    WeightsTotal(alpha, |x|);
    WeightsTotal(alpha, |x| + 1);
    SpreadMoments(w, x, WeightedSum(w, x));
    SpreadMoments(w', x', WeightedSum(w', x'));
    AppendMoments(alpha, x, value);
    MomentsUpdate(alpha, WeightedSum(w, Squares(x)), WeightedSum(w, x), value);
  }

  lemma SingleSample(alpha: real, value: real)
    ensures Batch(alpha, [] + [value]) == State(value, 0.0, 1)
  {
    assert [] + [value] == [value] && Weights(alpha, 1) == [1.0];
    assert [value][..0] == [] && [1.0][..0] == [];
    Trivial(value);
    Trivial(1.0);
    assert WeightedSum([1.0], [value]) == value;
    assert Spread([1.0], [value], value) == 0.0 + Product(1.0, Product(value - value, value - value));
  }

  // ----- what the weights give -----

  lemma ProductSign(a: real, b: real)
    requires a >= 0.0 && b >= 0.0
    ensures Product(a, b) >= 0.0
  {
  }

  lemma SquareSign(d: real)
    ensures Product(d, d) >= 0.0
  {
  }

  lemma ProductBounds(a: real, b: real, lo: real, hi: real)
    requires a >= 0.0 && lo <= b <= hi
    ensures Product(lo, a) <= Product(a, b) <= Product(hi, a)
  {
    assert a * (b - lo) >= 0.0 && a * (hi - b) >= 0.0;
  }

  lemma {:induction false} WeightsNonNegative(alpha: real, n: nat)
    requires 0.0 <= alpha <= 1.0 && n > 0
    ensures forall i :: 0 <= i < n ==> Weights(alpha, n)[i] >= 0.0
  {
    hide Product;
    if n > 1 {
      WeightsNonNegative(alpha, n - 1);
      var w := Weights(alpha, n - 1);
      forall i | 0 <= i < n - 1 ensures Product(1.0 - alpha, w[i]) >= 0.0 {
        ProductSign(1.0 - alpha, w[i]);
      }
    }
  }

  lemma {:induction false} BetweenBounds(w: seq<real>, x: seq<real>, lo: real, hi: real)
    requires |w| == |x| && forall i :: 0 <= i < |w| ==> w[i] >= 0.0 && lo <= x[i] <= hi
    ensures Product(lo, Total(w)) <= WeightedSum(w, x) <= Product(hi, Total(w))
  {
    hide Product;
    if w == [] {
      Trivial(lo);
      Trivial(hi);
    } else {
      var v, a := w[..|w| - 1], w[|w| - 1];
      BetweenBounds(v, x[..|x| - 1], lo, hi);
      ProductBounds(a, x[|x| - 1], lo, hi);
      Distribute(lo, Total(v), a);
      Distribute(hi, Total(v), a);
    }
  }

  lemma {:induction false} SpreadNonNegative(w: seq<real>, x: seq<real>, c: real)
    requires |w| == |x| && forall i :: 0 <= i < |w| ==> w[i] >= 0.0
    ensures Spread(w, x, c) >= 0.0
  {
    hide Product;
    if w != [] {
      var d := x[|x| - 1] - c;
      SpreadNonNegative(w[..|w| - 1], x[..|x| - 1], c);
      SquareSign(d);
      ProductSign(w[|w| - 1], Product(d, d));
    }
  }

  /** With alpha in [0, 1] the mean stays between any bounds on the samples and the variance is never
      negative, after any number of samples. */
  lemma MeanAndVarianceBounds(alpha: real, x: seq<real>, lo: real, hi: real)
    requires 0.0 <= alpha <= 1.0 && Bounded(x, lo, hi)
    ensures lo <= Batch(alpha, x).mean <= hi && Batch(alpha, x).variance >= 0.0
  {
    hide Product, WeightedSum, Spread, Weights, Total;
    var w := Weights(alpha, |x|);
    WeightsNonNegative(alpha, |x|);
    WeightsTotal(alpha, |x|);
    BetweenBounds(w, x, lo, hi);
    Trivial(lo);
    Trivial(hi);
    SpreadNonNegative(w, x, WeightedSum(w, x));
  }

  /** No other alpha gives these bounds: the samples 0 and 1 have mean alpha and variance
      (1 - alpha) * alpha. */
  lemma VarianceNonNegativeExactly(alpha: real)
    ensures (forall x: seq<real> :: x != [] ==> Batch(alpha, x).variance >= 0.0) <==> 0.0 <= alpha <= 1.0
    ensures (forall x: seq<real>, lo: real, hi: real :: Bounded(x, lo, hi) ==> lo <= Batch(alpha, x).mean <= hi)
       <==> 0.0 <= alpha <= 1.0
  {
    hide Batch;
    ZeroOne(alpha);
    assert Bounded([0.0, 1.0], 0.0, 1.0);
    if 0.0 <= alpha <= 1.0 {
      forall x: seq<real>, lo: real, hi: real | Bounded(x, lo, hi) ensures lo <= Batch(alpha, x).mean <= hi {
        MeanAndVarianceBounds(alpha, x, lo, hi);
      }
      forall x: seq<real> | x != [] ensures Batch(alpha, x).variance >= 0.0 {
        var lo, hi := SomeBounds(x);
        MeanAndVarianceBounds(alpha, x, lo, hi);
      }
    } else if alpha < 0.0 {
      assert (1.0 - alpha) * alpha < 0.0;
    } else {
      assert (1.0 - alpha) * alpha < 0.0;
    }
  }

  predicate Bounded(x: seq<real>, lo: real, hi: real) {
    x != [] && forall i :: 0 <= i < |x| ==> lo <= x[i] <= hi
  }

  lemma {:induction false} SomeBounds(x: seq<real>) returns (lo: real, hi: real)
    requires x != []
    ensures Bounded(x, lo, hi)
  {
    var last := x[|x| - 1];
    if |x| == 1 {
      return last, last;
    }
    lo, hi := SomeBounds(x[..|x| - 1]);
    lo, hi := if last < lo then last else lo, if last > hi then last else hi;
  }

  lemma ZeroOne(alpha: real)
    ensures Batch(alpha, [0.0, 1.0]) == State(alpha, (1.0 - alpha) * alpha, 2)
  {
    hide Batch;
    SingleSample(alpha, 0.0);
    OnlineIsBatch(alpha, [0.0], 1.0);
    assert [] + [0.0] == [0.0] && [0.0] + [1.0] == [0.0, 1.0];
  }

  function Power(b: real, k: nat): real {
    if k == 0 then 1.0 else Product(b, Power(b, k - 1))
  }

  /** The weights in closed form: they decay geometrically with age. */
  lemma {:induction false} WeightAt(alpha: real, n: nat, i: nat)
    requires i < n
    ensures Weights(alpha, n)[i] == Product(if i == 0 then 1.0 else alpha, Power(1.0 - alpha, n - 1 - i))
  {
    hide Product;
    var f, b := if i == 0 then 1.0 else alpha, 1.0 - alpha;
    Trivial(f);
    if i < n - 1 {
      WeightAt(alpha, n - 1, i);
      Exchange(b, f, Power(b, n - 2 - i));
    }
  }

  lemma Exchange(b: real, f: real, p: real)
    ensures Product(b, Product(f, p)) == Product(f, Product(b, p))
  {
  }
}
