/** Running statistics: Welford's update and the batch statistics it must equal.
    Doubles are modelled as reals. */
module Statistics {

  datatype Summary = Summary(mean: real, m2: real, min: real, max: real)

  const BLANK := Summary(0.0, 0.0, 0.0, 0.0)

  // The reference: batch statistics over all values.

  function Total(f: real -> real, xs: seq<real>): real {
    if xs == [] then 0.0 else Total(f, xs[..|xs| - 1]) + f(xs[|xs| - 1])
  }

  function Identity(): real -> real { x => x }

  function Sum(xs: seq<real>): real { Total(Identity(), xs) }

  /** The squared distance from m. */
  function Distance(m: real): real -> real { x => (x - m) * (x - m) }

  /** The sum of squared distances from m. */
  function Spread(xs: seq<real>, m: real): real { Total(Distance(m), xs) }

  function Lesser(a: real, b: real): real { if b < a then b else a }

  function Greater(a: real, b: real): real { if b > a then b else a }

  function Least(xs: seq<real>): real
    requires xs != []
  {
    if |xs| == 1 then xs[0] else Lesser(Least(xs[..|xs| - 1]), xs[|xs| - 1])
  }

  function Greatest(xs: seq<real>): real
    requires xs != []
  {
    if |xs| == 1 then xs[0] else Greater(Greatest(xs[..|xs| - 1]), xs[|xs| - 1])
  }

  function Mean(xs: seq<real>): real
    requires xs != []
  {
    Sum(xs) / |xs| as real
  }

  function Batch(xs: seq<real>): Summary {
    if xs == [] then BLANK else Summary(Mean(xs), Spread(xs, Mean(xs)), Least(xs), Greatest(xs))
  }

  // The update.

  /** From the mean and the spread of any values, those with one value more; the assignments
      themselves for whatever else the accumulators hold. */
  method WelfordUpdate(mean: real, m2: real, value: real, count: nat, ghost xs: seq<real>)
      returns (mean': real, m2': real)
    requires count > 0
    ensures mean' == Shifted(mean, value, count) && m2' == m2 + (value - mean) * (value - mean')
    ensures xs != [] && count == |xs| + 1 && mean == Mean(xs) && m2 == Spread(xs, mean)
        ==> mean' == Mean(xs + [value]) && m2' == Spread(xs + [value], mean')
  {
    var delta := value - mean;
    mean' := mean + delta / count as real;
    var delta2 := value - mean';
    m2' := m2 + delta * delta2;
    if xs != [] && count == |xs| + 1 && mean == Mean(xs) && m2 == Spread(xs, mean) {
      MeanNext(xs, value);
      SpreadNext(xs, value);
    }
  }

  function Shifted(mean: real, x: real, count: nat): real
    requires count > 0
  {
    mean + (x - mean) / count as real
  }

  /** What the code makes of a summary and the count-th value: the first fills the summary. */
  function Push(s: Summary, x: real, count: nat): Summary
    requires count > 0
  {
    if count == 1 then Summary(x, 0.0, x, x)
    else
      var mean := Shifted(s.mean, x, count);
      Summary(mean, s.m2 + (x - s.mean) * (x - mean), Lesser(s.min, x), Greater(s.max, x))
  }

  // The online update keeps exactly the batch statistics.

  lemma {:induction false} TotalNext(f: real -> real, xs: seq<real>, x: real)
    ensures Total(f, xs + [x]) == Total(f, xs) + f(x)
  {
    assert (xs + [x])[..|xs|] == xs;
  }

  lemma {:induction false} Distribute(p: real, a: real, b: real)
    ensures p * (a + b) == p * a + p * b
  {
  }

  /** Adding an affine term to every value adds it up over the list. */
  lemma {:induction false} TotalAffine(f: real -> real, g: real -> real, xs: seq<real>, p: real, q: real)
    requires forall x :: f(x) == g(x) + (p * x + q)
    ensures Total(f, xs) == Total(g, xs) + (p * Sum(xs) + q * |xs| as real)
  {
    if xs != [] {
      var init, x := xs[..|xs| - 1], xs[|xs| - 1];
      TotalAffine(f, g, init, p, q);
      Distribute(p, Sum(init), x);
      Distribute(q, |init| as real, 1.0);
      assert |xs| as real == |init| as real + 1.0;
      assert f(x) == g(x) + (p * x + q);
    }
  }

  function Slope(e: real): real { -2.0 * e }

  function Level(m: real, e: real): real { 2.0 * e * m + e * e }

  lemma {:induction false} SquareShift(x: real, m: real, e: real)
    ensures (x - (m + e)) * (x - (m + e)) == (x - m) * (x - m) + (Slope(e) * x + Level(m, e))
  {
  }

  lemma {:induction false} Centred(e: real, m: real, n: real)
    ensures Slope(e) * (m * n) + Level(m, e) * n == n * (e * e)
  {
  }

  lemma {:induction false} MeanSum(xs: seq<real>)
    requires xs != []
    ensures Mean(xs) * |xs| as real == Sum(xs)
  {
  }

  lemma {:induction false} DistanceMoved(m: real, e: real, x: real)
    ensures Distance(m + e)(x) == Distance(m)(x) + (Slope(e) * x + Level(m, e))
  {
    SquareShift(x, m, e);
  }

  ghost predicate MovesBy(m: real, e: real, p: real, q: real)
  {
    forall x :: Distance(m + e)(x) == Distance(m)(x) + (p * x + q)
  }

  lemma {:induction false} AllMoved(m: real, e: real)
    ensures MovesBy(m, e, Slope(e), Level(m, e))
  {
    forall x ensures Distance(m + e)(x) == Distance(m)(x) + (Slope(e) * x + Level(m, e)) { DistanceMoved(m, e, x); }
  }

  lemma {:induction false} SpreadMoved(xs: seq<real>, m: real, e: real, p: real, q: real)
    requires MovesBy(m, e, p, q)
    ensures Spread(xs, m + e) == Spread(xs, m) + (p * Sum(xs) + q * |xs| as real)
  {
    TotalAffine(Distance(m + e), Distance(m), xs, p, q);
  }

  /** Moving the centre by e away from the mean adds n times e squared. */
  lemma {:induction false} SpreadAway(xs: seq<real>, e: real)
    requires xs != []
    ensures Spread(xs, Mean(xs) + e) == Spread(xs, Mean(xs)) + |xs| as real * (e * e)
  {
    AllMoved(Mean(xs), e);
    SpreadMoved(xs, Mean(xs), e, Slope(e), Level(Mean(xs), e));
    MeanSum(xs);
    Centred(e, Mean(xs), |xs| as real);
  }

  lemma {:induction false} DivideBack(a: real, b: real, n: real)
    requires n != 0.0 && a * n == b
    ensures b / n == a
  {
  }

  lemma {:induction false} ShiftedSum(m: real, x: real, n: real)
    requires n + 1.0 != 0.0
    ensures (m + (x - m) / (n + 1.0)) * (n + 1.0) == m * n + x
  {
    var q := (x - m) / (n + 1.0);
    assert q * (n + 1.0) == x - m;
    Distribute(n + 1.0, m, q);
    Distribute(m, n, 1.0);
  }

  lemma {:induction false} MeanNext(xs: seq<real>, x: real)
    requires xs != []
    ensures Mean(xs + [x]) == Shifted(Mean(xs), x, |xs| + 1)
  {
    var m, n := Mean(xs), |xs| as real;
    MeanSum(xs);
    TotalNext(Identity(), xs, x);
    ShiftedSum(m, x, n);
    assert (|xs| + 1) as real == n + 1.0;
    DivideBack(Shifted(m, x, |xs| + 1), Sum(xs + [x]), n + 1.0);
  }

  lemma {:induction false} StepAlgebra(d: real, e: real, n: real)
    requires n > 0.0 && e == d / (n + 1.0)
    ensures n * (e * e) + (d - e) * (d - e) == d * (d - e)
  {
    assert d == e * (n + 1.0);
    Distribute(e, n, 1.0);
    assert d - e == e * n;
    assert n * (e * e) == e * (e * n) == e * (d - e);
    assert d * (d - e) == (d - e) * (d - e) + e * (d - e);
  }

  lemma {:induction false} SpreadNext(xs: seq<real>, x: real)
    requires xs != []
    ensures var m, m' := Mean(xs), Shifted(Mean(xs), x, |xs| + 1);
      Spread(xs + [x], m') == Spread(xs, m) + (x - m) * (x - m')
  {
    var m, n := Mean(xs), |xs| as real;
    var e := (x - m) / (n + 1.0);
    assert (|xs| + 1) as real == n + 1.0;
    TotalNext(Distance(m + e), xs, x);
    SpreadAway(xs, e);
    StepAlgebra(x - m, e, n);
    assert x - (m + e) == (x - m) - e;
  }

  lemma {:induction false} ExtremesNext(xs: seq<real>, x: real)
    requires xs != []
    ensures Least(xs + [x]) == Lesser(Least(xs), x) && Greatest(xs + [x]) == Greater(Greatest(xs), x)
  {
    assert (xs + [x])[..|xs|] == xs;
  }

  lemma {:induction false} PushFirst(s: Summary, x: real)
    ensures Push(s, x, 1) == Batch([x])
  {
    assert [] + [x] == [x];
    TotalNext(Identity(), [], x);
    TotalNext(Distance(x), [], x);
    assert Sum([x]) == x && Spread([x], x) == 0.0;
    DivideBack(x, Sum([x]), 1.0);
  }

  lemma {:induction false} PushNext(s: Summary, xs: seq<real>, x: real, all: Summary)
    requires xs != [] && s == Batch(xs) && all == Batch(xs + [x])
    ensures Push(s, x, |xs| + 1) == all
  {
    MeanNext(xs, x);
    SpreadNext(xs, x);
    ExtremesNext(xs, x);
  }

  /** Pushing a value onto the batch statistics of the values so far gives the batch
      statistics of all of them. */
  lemma {:induction false} PushBatch(xs: seq<real>, x: real)
    ensures Push(Batch(xs), x, |xs| + 1) == Batch(xs + [x])
  {
    if xs == [] {
      assert [] + [x] == [x];
      PushFirst(Batch(xs), x);
    } else {
      PushNext(Batch(xs), xs, x, Batch(xs + [x]));
    }
  }

  // What the batch statistics mean.

  lemma {:induction false} TotalNonNegative(f: real -> real, xs: seq<real>)
    requires forall x :: f(x) >= 0.0
    ensures Total(f, xs) >= 0.0
  {
    if xs != [] {
      TotalNonNegative(f, xs[..|xs| - 1]);
      assert f(xs[|xs| - 1]) >= 0.0;
    }
  }

  lemma {:induction false} SquareNonNegative(x: real)
    ensures x * x >= 0.0
  {
    if x < 0.0 { assert x * x == (-x) * (-x); }
  }

  lemma {:induction false} SpreadNonNegative(xs: seq<real>, m: real)
    ensures Spread(xs, m) >= 0.0
  {
    forall x ensures Distance(m)(x) >= 0.0 { SquareNonNegative(x - m); }
    TotalNonNegative(Distance(m), xs);
  }

  lemma {:induction false} Extremes(xs: seq<real>)
    requires xs != []
    ensures Least(xs) in xs && Greatest(xs) in xs
    ensures forall i :: 0 <= i < |xs| ==> Least(xs) <= xs[i] <= Greatest(xs)
  {
    if |xs| > 1 { Extremes(xs[..|xs| - 1]); }
  }

  lemma {:induction false} SumBounds(xs: seq<real>, lo: real, hi: real)
    requires forall i :: 0 <= i < |xs| ==> lo <= xs[i] <= hi
    ensures lo * |xs| as real <= Sum(xs) <= hi * |xs| as real
  {
    if xs != [] {
      SumBounds(xs[..|xs| - 1], lo, hi);
      var n := (|xs| - 1) as real;
      assert |xs| as real == n + 1.0;
      Distribute(lo, n, 1.0);
      Distribute(hi, n, 1.0);
    }
  }

  lemma {:induction false} Between(lo: real, m: real, hi: real, n: real, s: real)
    requires n > 0.0 && lo * n <= s <= hi * n && m * n == s
    ensures lo <= m <= hi
  {
    assert lo > m ==> (lo - m) * n > 0.0;
    assert m > hi ==> (m - hi) * n > 0.0;
  }

  lemma {:induction false} MeanWithin(xs: seq<real>, lo: real, hi: real)
    requires xs != [] && forall i :: 0 <= i < |xs| ==> lo <= xs[i] <= hi
    ensures lo <= Mean(xs) <= hi
  {
    var m, n := Mean(xs), |xs| as real;
    assert lo * n <= Sum(xs) <= hi * n by { SumBounds(xs, lo, hi); }
    assert m * n == Sum(xs) by { MeanSum(xs); }
    Between(lo, m, hi, n, Sum(xs));
  }

  lemma {:induction false} MeanBetween(xs: seq<real>)
    requires xs != []
    ensures Least(xs) <= Mean(xs) <= Greatest(xs)
  {
    Extremes(xs);
    MeanWithin(xs, Least(xs), Greatest(xs));
  }

  /** The batch mean times n is the sum, its spread is not negative, and the mean lies between
      the least and the greatest value, both of which occur. */
  lemma {:induction false} BatchFacts(xs: seq<real>)
    requires xs != []
    ensures Batch(xs).mean * |xs| as real == Sum(xs)
    ensures Batch(xs).m2 == Spread(xs, Batch(xs).mean) >= 0.0
    ensures Batch(xs).min in xs && Batch(xs).max in xs && Batch(xs).min <= Batch(xs).mean <= Batch(xs).max
    ensures forall i :: 0 <= i < |xs| ==> Batch(xs).min <= xs[i] <= Batch(xs).max
  {
    MeanSum(xs);
    SpreadNonNegative(xs, Mean(xs));
    Extremes(xs);
    MeanBetween(xs);
  }
}
