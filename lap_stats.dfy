/**
  The two `reduce` computations of the driver-laps deep-dive page: the sum of
  a list of numbers starting from 0, the average (sum divided by the count)
  and the population variance (mean squared deviation, divided by the count).
  The standard deviation shown on the page is the square root of Variance.
 */
module LapStats {
  import opened JsNumber

  /** `xs.reduce((sum, x) => sum + x, 0)`. */
  function Sum(xs: seq<Num>): Num {
    if xs == [] then Fin(0.0) else Add(Sum(xs[..|xs| - 1]), xs[|xs| - 1])
  }

  /** `Math.pow(x, 2)`: NaN stays NaN, both infinities square to +Infinity. */
  function Square(x: Num): (r: Num)
    ensures x.NaN? <==> r.NaN?
    ensures x.Fin? ==> r.Fin? && r.v >= 0.0
    ensures !x.Fin? && !x.NaN? ==> r == PosInf
  {
    Mul(x, x)
  }

  /** `xs.reduce((sum, x) => sum + Math.pow(x - mean, 2), 0)`. */
  function SquaredDeviations(xs: seq<Num>, mean: Num): Num {
    if xs == [] then Fin(0.0)
    else Add(SquaredDeviations(xs[..|xs| - 1], mean), Square(Sub(xs[|xs| - 1], mean)))
  }

  /** The average lap time: the total divided by the number of laps. */
  function Mean(xs: seq<Num>): Num
    requires |xs| > 0
  {
    DivCount(Sum(xs), |xs|)
  }

  /** The variance of the lap times about their mean, dividing by N. */
  function Variance(xs: seq<Num>): Num
    requires |xs| > 0
  {
    DivCount(SquaredDeviations(xs, Mean(xs)), |xs|)
  }

  predicate AllFinite(xs: seq<Num>) {
    forall i :: 0 <= i < |xs| ==> xs[i].Fin?
  }

  // ---------------------------------------------------------------------
  // Sums of finite values

  lemma {:induction false} SumFinite(xs: seq<Num>)
    requires AllFinite(xs)
    ensures Sum(xs).Fin?
  {
    if xs != [] {
      SumFinite(xs[..|xs| - 1]);
    }
  }

  /** A sum of values between lo and hi lies between n*lo and n*hi. */
  lemma {:induction false} SumBounds(xs: seq<Num>, lo: real, hi: real)
    requires forall i :: 0 <= i < |xs| ==> xs[i].Fin? && lo <= xs[i].v <= hi
    ensures Sum(xs).Fin?
    ensures Scaled(|xs|, lo) <= Sum(xs).v <= Scaled(|xs|, hi)
  {
    if xs != [] {
      var init := xs[..|xs| - 1];
      assert forall i :: 0 <= i < |init| ==> init[i] == xs[i];
      SumBounds(init, lo, hi);
    }
  }

  /** Adding one more value to a NaN total keeps it NaN. */
  lemma {:induction false} SumNaN(xs: seq<Num>, k: nat)
    requires k < |xs| && xs[k].NaN?
    ensures Sum(xs).NaN?
  {
    if k < |xs| - 1 {
      SumNaN(xs[..|xs| - 1], k);
    }
  }

  /** The sum of n copies of c is n*c. */
  lemma {:induction false} SumConstant(xs: seq<Num>, c: real)
    requires forall i :: 0 <= i < |xs| ==> xs[i] == Fin(c)
    ensures Sum(xs) == Fin(|xs| as real * c)
  {
    if xs != [] {
      SumConstant(xs[..|xs| - 1], c);
      StepConstant((|xs| - 1) as real, c);
    }
  }

  // ---------------------------------------------------------------------
  // Mean

  /** A NaN lap time makes the average NaN. */
  lemma MeanNaN(xs: seq<Num>, k: nat)
    requires k < |xs| && xs[k].NaN?
    ensures Mean(xs).NaN?
  {
    SumNaN(xs, k);
  }

  /** The average of finite lap times lies between the slowest and the
      fastest of them. */
  lemma MeanBetween(xs: seq<Num>, lo: real, hi: real)
    requires |xs| > 0
    requires forall i :: 0 <= i < |xs| ==> xs[i].Fin? && lo <= xs[i].v <= hi
    ensures Mean(xs).Fin? && lo <= Mean(xs).v <= hi
  {
    SumBounds(xs, lo, hi);
    ScaledProduct(|xs|, lo);
    ScaledProduct(|xs|, hi);
    DivideBounds(Sum(xs).v, |xs| as real, lo, hi);
  }

  /** Laps that all take the same time c average to c. */
  lemma MeanConstant(xs: seq<Num>, c: real)
    requires |xs| > 0
    requires forall i :: 0 <= i < |xs| ==> xs[i] == Fin(c)
    ensures Mean(xs) == Fin(c)
  {
    SumConstant(xs, c);
    DivideConstant(|xs| as real, c);
  }

  // ---------------------------------------------------------------------
  // Variance

  lemma {:induction false} DeviationsNonNegative(xs: seq<Num>, m: real)
    requires AllFinite(xs)
    ensures SquaredDeviations(xs, Fin(m)).Fin?
    ensures SquaredDeviations(xs, Fin(m)).v >= 0.0
  {
    if xs != [] {
      DeviationsNonNegative(xs[..|xs| - 1], m);
    }
  }

  /** One lap's squared deviation is 0 exactly when that lap equals the mean. */
  lemma DeviationZero(x: Num, m: real)
    requires x.Fin?
    ensures Square(Sub(x, Fin(m))).Fin?
    ensures Square(Sub(x, Fin(m))).v == 0.0 <==> x == Fin(m)
  {
    var d := x.v - m;
    assert Square(Sub(x, Fin(m))) == Fin(d * d);
    SquareZero(d);
  }

  /** Squared deviations that sum to 0 mean every value equals the mean. */
  lemma {:induction false} DeviationsZeroOnlyIfConstant(xs: seq<Num>, m: real)
    requires AllFinite(xs)
    requires SquaredDeviations(xs, Fin(m)) == Fin(0.0)
    ensures forall i :: 0 <= i < |xs| ==> xs[i] == Fin(m)
  {
    if xs != [] {
      var init, x := xs[..|xs| - 1], xs[|xs| - 1];
      assert xs == init + [x];
      FiniteParts(init, x);
      DeviationsLast(init, x, m);
      DeviationsZeroOnlyIfConstant(init, m);
      AllEqualSnoc(init, x, Fin(m));
    }
  }

  lemma FiniteParts(init: seq<Num>, x: Num)
    requires AllFinite(init + [x])
    ensures AllFinite(init) && x.Fin?
  {
    assert forall i :: 0 <= i < |init| ==> init[i] == (init + [x])[i];
    assert x == (init + [x])[|init|];
  }

  lemma AllEqualSnoc(init: seq<Num>, x: Num, c: Num)
    requires forall i :: 0 <= i < |init| ==> init[i] == c
    requires x == c
    ensures forall i :: 0 <= i < |init + [x]| ==> (init + [x])[i] == c
  {
  }

  /** Peels the last lap off a zero sum of squared deviations. */
  lemma DeviationsLast(init: seq<Num>, x: Num, m: real)
    requires AllFinite(init) && x.Fin?
    requires SquaredDeviations(init + [x], Fin(m)) == Fin(0.0)
    ensures SquaredDeviations(init, Fin(m)) == Fin(0.0) && x == Fin(m)
  {
    assert (init + [x])[..|init|] == init;
    DeviationsNonNegative(init, m);
    DeviationZero(x, m);
    AddZero(SquaredDeviations(init, Fin(m)), Square(Sub(x, Fin(m))));
  }

  /** Values that all equal the mean have squared deviations summing to 0. */
  lemma {:induction false} DeviationsOfConstant(xs: seq<Num>, m: real)
    requires forall i :: 0 <= i < |xs| ==> xs[i] == Fin(m)
    ensures SquaredDeviations(xs, Fin(m)) == Fin(0.0)
  {
    if xs != [] {
      var init := xs[..|xs| - 1];
      assert forall i :: 0 <= i < |init| ==> init[i] == xs[i];
      DeviationsOfConstant(init, m);
      DeviationZero(xs[|xs| - 1], m);
    }
  }

  /** The squared deviations of finite values sum to 0 exactly when every
      value equals the mean. */
  lemma DeviationsZero(xs: seq<Num>, m: real)
    requires AllFinite(xs)
    ensures SquaredDeviations(xs, Fin(m)) == Fin(0.0) <==> forall i :: 0 <= i < |xs| ==> xs[i] == Fin(m)
  {
    if SquaredDeviations(xs, Fin(m)) == Fin(0.0) {
      DeviationsZeroOnlyIfConstant(xs, m);
    }
    if forall i :: 0 <= i < |xs| ==> xs[i] == Fin(m) {
      DeviationsOfConstant(xs, m);
    }
  }

  /** The variance of finite lap times is a finite value that is never
      negative. */
  lemma VarianceNonNegative(xs: seq<Num>)
    requires |xs| > 0 && AllFinite(xs)
    ensures Variance(xs).Fin? && Variance(xs).v >= 0.0
  {
    SumFinite(xs);
    DeviationsNonNegative(xs, Mean(xs).v);
  }

  /** The variance of finite lap times is 0 exactly when all the laps took
      the same time. */
  lemma VarianceZeroIffConstant(xs: seq<Num>)
    requires |xs| > 0 && AllFinite(xs)
    ensures Variance(xs) == Fin(0.0) <==> forall i :: 0 <= i < |xs| ==> xs[i] == xs[0]
  {
    SumFinite(xs);
    var m := Mean(xs).v;
    DeviationsNonNegative(xs, m);
    DeviationsZero(xs, m);
    DivideZero(SquaredDeviations(xs, Fin(m)).v, |xs| as real);
    if forall i :: 0 <= i < |xs| ==> xs[i] == xs[0] {
      MeanConstant(xs, xs[0].v);
    }
  }

  // ---------------------------------------------------------------------
  // Real arithmetic used above

  /** n*c written as n repeated additions, which keeps the sums linear. */
  function Scaled(n: nat, c: real): real {
    if n == 0 then 0.0 else Scaled(n - 1, c) + c
  }

  lemma {:induction false} ScaledProduct(n: nat, c: real)
    ensures Scaled(n, c) == n as real * c
  {
    if n > 0 {
      ScaledProduct(n - 1, c);
      StepConstant((n - 1) as real, c);
    }
  }

  lemma StepConstant(n: real, c: real)
    ensures (n + 1.0) * c == n * c + c
  {
  }

  lemma DivideBounds(s: real, n: real, lo: real, hi: real)
    requires n > 0.0 && n * lo <= s <= n * hi
    ensures lo <= s / n <= hi
  {
  }

  lemma DivideConstant(n: real, c: real)
    requires n > 0.0
    ensures n * c / n == c
  {
  }

  lemma DivideZero(q: real, n: real)
    requires n > 0.0
    ensures q / n == 0.0 <==> q == 0.0
  {
  }

  lemma SquareZero(d: real)
    ensures d * d >= 0.0
    ensures d != 0.0 ==> d * d > 0.0
  {
  }

  lemma AddZero(a: Num, b: Num)
    requires a.Fin? && b.Fin? && a.v >= 0.0 && b.v >= 0.0 && Add(a, b) == Fin(0.0)
    ensures a == Fin(0.0) && b.v == 0.0
  {
  }
}
