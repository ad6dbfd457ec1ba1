/**
 * Scalar values as the morphology code produces them: floats that may be NaN,
 * statistics that may be the reserved "invalid" sentinel -99.0, and Python's
 * truncating int() conversion.
 */
module Values {

  datatype Option<T> = None | Some(value: T)

  /** A floating-point result that is either a real number or NaN. */
  datatype Num = Real(v: real) | NaN

  /** A derived statistic: a valid value, or the sentinel -99.0 marking an invalid measurement. */
  datatype Stat = Valid(v: real) | Invalid {
    /** The float the source returns for this statistic. */
    function AsFloat(): real {
      if Valid? then v else -99.0
    }
  }

  /** Python's int() applied to a float: truncation toward zero. */
  function Trunc(x: real): (r: int)
    ensures 0.0 <= x ==> 0 <= r && r as real <= x < r as real + 1.0
    ensures x < 0.0 ==> r <= 0 && r as real - 1.0 < x <= r as real
  {
    if x >= 0.0 then x.Floor else -((-x).Floor)
  }

  /** np.abs on a float. */
  function Abs(x: real): (r: real)
    ensures r >= 0.0 && (r == x || r == -x)
  {
    if x < 0.0 then -x else x
  }

  /** Multiplying by a non-negative factor keeps the order of two reals. */
  lemma MulMonotone(a: real, b: real, m: real)
    requires a <= b && m >= 0.0
    ensures a * m <= b * m
  {
    assert b * m - a * m == (b - a) * m;
  }

  /** Multiplying by a positive factor keeps the strict order of two reals. */
  lemma MulStrict(a: real, b: real, m: real)
    requires a < b && m > 0.0
    ensures a * m < b * m
  {
    assert b * m - a * m == (b - a) * m;
  }

  function Max(a: int, b: int): int {
    if a < b then b else a
  }

  function Min(a: int, b: int): int {
    if a < b then a else b
  }
}
