/**
  JavaScript numbers as the dashboard uses them: NaN, the two infinities and
  finite values. Finite values are exact reals; the binary rounding of IEEE
  doubles is not modelled.
 */
module JsNumber {

  datatype Num = NaN | NegInf | Fin(v: real) | PosInf

  /** A numeric column as a database row delivers it: `null` or a number. */
  datatype Nullable = Null | Value(n: Num)

  /** What `+`, `-`, `<` and `>` make of such a column: `null` counts as 0. */
  function ToNumber(x: Nullable): Num {
    match x
    case Null => Fin(0.0)
    case Value(n) => n
  }

  /** `a + b`, with NaN absorbing and opposite infinities giving NaN. */
  function Add(a: Num, b: Num): Num {
    match (a, b)
    case (Fin(x), Fin(y)) => Fin(x + y)
    case (NaN, _) => NaN
    case (_, NaN) => NaN
    case (PosInf, NegInf) => NaN
    case (NegInf, PosInf) => NaN
    case (PosInf, _) => PosInf
    case (NegInf, _) => NegInf
    case (Fin(_), _) => b
  }

  function Neg(a: Num): Num {
    match a
    case NaN => NaN
    case NegInf => PosInf
    case PosInf => NegInf
    case Fin(x) => Fin(-x)
  }

  /** `a - b`. */
  function Sub(a: Num, b: Num): Num {
    Add(a, Neg(b))
  }

  /** `a * b`; an infinity times zero is NaN. */
  function Mul(a: Num, b: Num): Num {
    match (a, b)
    case (Fin(x), Fin(y)) => Fin(x * y)
    case (NaN, _) => NaN
    case (_, NaN) => NaN
    case _ =>
      var sa := Sign(a);
      var sb := Sign(b);
      if sa == 0 || sb == 0 then NaN else if sa == sb then PosInf else NegInf
  }

  function Sign(a: Num): int {
    match a
    case NaN => 0
    case NegInf => -1
    case PosInf => 1
    case Fin(x) => if x < 0.0 then -1 else if x > 0.0 then 1 else 0
  }

  /** `a / n` for a positive element count `n`, as in `total / data.length`. */
  function DivCount(a: Num, n: nat): Num
    requires n > 0
  {
    match a
    case Fin(x) => Fin(x / n as real)
    case _ => a
  }

  /** `Math.abs(a)`. */
  function Abs(a: Num): Num {
    match a
    case NaN => NaN
    case Fin(x) => Fin(if x < 0.0 then -x else x)
    case _ => PosInf
  }

  /** `a < b`: false whenever either side is NaN. */
  predicate Lt(a: Num, b: Num) {
    match (a, b)
    case (Fin(x), Fin(y)) => x < y
    case _ => !a.NaN? && !b.NaN? && ((a.NegInf? && !b.NegInf?) || (b.PosInf? && !a.PosInf?))
  }

  /** `a > b`. */
  predicate Gt(a: Num, b: Num) {
    Lt(b, a)
  }

  /** `a >= b`: false whenever either side is NaN. */
  predicate Ge(a: Num, b: Num) {
    Gt(a, b) || (a == b && !a.NaN?)
  }

  /** `<` is a strict order on the numbers that are not NaN. */
  lemma LtTransitive(a: Num, b: Num, c: Num)
    requires Lt(a, b) && Lt(b, c)
    ensures Lt(a, c)
  {
  }

  /** Any two numbers that are not NaN are ordered one way or the other. */
  lemma LtTrichotomy(a: Num, b: Num)
    requires !a.NaN? && !b.NaN?
    ensures Lt(a, b) || a == b || Lt(b, a)
  {
  }

  /** `a - b > 0` holds exactly when `b < a`, infinities and NaN included. */
  lemma SubPositive(a: Num, b: Num)
    ensures Gt(Sub(a, b), Fin(0.0)) <==> Lt(b, a)
  {
  }

  /** `Math.round`-free rounding used by `parseFloat(x.toFixed(1))`: the
      nearest tenth, ties away from zero (toFixed rounds the magnitude). */
  function RoundTenth(a: Num): Num {
    match a
    case Fin(x) =>
      if x < 0.0 then Fin(-(((-x) * 10.0 + 0.5).Floor as real) / 10.0)
      else Fin(((x * 10.0 + 0.5).Floor as real) / 10.0)
    case _ => a
  }

  /** Rounding to a tenth moves a finite value by at most a twentieth. */
  lemma RoundTenthClose(x: real)
    ensures RoundTenth(Fin(x)).Fin?
    ensures -0.05 <= RoundTenth(Fin(x)).v - x <= 0.05
  {
    if x < 0.0 {
      var k := ((-x) * 10.0 + 0.5).Floor;
      assert k as real <= (-x) * 10.0 + 0.5 < k as real + 1.0;
    } else {
      var k := (x * 10.0 + 0.5).Floor;
      assert k as real <= x * 10.0 + 0.5 < k as real + 1.0;
    }
  }
}
