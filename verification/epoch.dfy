/** The A1MJD conversions of altavista/cdm.py.  Every floating-point operation is followed by `rnd`: any
    monotone rounding with relative error at most 2^-53, as round-to-nearest of binary64 is (IEEE 754-2008,
    section 4.3.1). */
module Epoch {
  import opened Base

  const A1_MINUS_TAI_NS := 34_381_700
  const NS_PER_DAY := 86_400_000_000_000.0
  const GMAT_MJD_AT_UNIX_EPOCH := 10_587.5

  /** 2^-53 */
  const ULP := 1.0 / 9_007_199_254_740_992.0

  ghost predicate Rounding(rnd: real -> real) {
    && (forall x, y :: x <= y ==> rnd(x) <= rnd(y))
    && (forall x :: Abs(rnd(x) - x) <= ULP * Abs(x))
  }

  // ---------------------------------------------------------------- the code

  function Ceil(x: real): int { -(-x).Floor }

  /** `_round_half_away_from_zero`. */
  function HalfAway(x: real, rnd: real -> real): int {
    if x >= 0.0 then rnd(x + 0.5).Floor else Ceil(rnd(x - 0.5))
  }

  /** `tai_ns_to_a1mjd`. */
  function ToA1Mjd(tai: int, rnd: real -> real): real {
    rnd(GMAT_MJD_AT_UNIX_EPOCH + rnd(rnd((tai + A1_MINUS_TAI_NS) as real) / NS_PER_DAY))
  }

  /** `a1mjd_to_tai_ns`. */
  function FromA1Mjd(a1: real, rnd: real -> real): int {
    HalfAway(rnd(rnd(a1 - GMAT_MJD_AT_UNIX_EPOCH) * NS_PER_DAY), rnd) - A1_MINUS_TAI_NS
  }

  // ---------------------------------------------------------------- order

  lemma ToA1MjdMonotone(x: int, y: int, rnd: real -> real)
    requires Rounding(rnd) && x <= y
    ensures ToA1Mjd(x, rnd) <= ToA1Mjd(y, rnd)
  {
    var a, b := rnd((x + A1_MINUS_TAI_NS) as real), rnd((y + A1_MINUS_TAI_NS) as real);
    assert a <= b;
    assert a / NS_PER_DAY <= b / NS_PER_DAY;
    assert rnd(a / NS_PER_DAY) <= rnd(b / NS_PER_DAY);
  }

  lemma FloorMonotone(x: real, y: real)
    requires x <= y
    ensures x.Floor <= y.Floor
  {
  }

  lemma HalfAwayMonotone(x: real, y: real, rnd: real -> real)
    requires Rounding(rnd) && x <= y
    ensures HalfAway(x, rnd) <= HalfAway(y, rnd)
  {
    if x >= 0.0 {
      FloorMonotone(rnd(x + 0.5), rnd(y + 0.5));
    } else if y < 0.0 {
      FloorMonotone(-rnd(y - 0.5), -rnd(x - 0.5));
    } else {
      assert Abs(rnd(0.0) - 0.0) <= ULP * Abs(0.0);
      assert rnd(x - 0.5) <= rnd(0.0) <= rnd(y + 0.5);
    }
  }

  lemma FromA1MjdMonotone(x: real, y: real, rnd: real -> real)
    requires Rounding(rnd) && x <= y
    ensures FromA1Mjd(x, rnd) <= FromA1Mjd(y, rnd)
  {
    var a, b := rnd(x - GMAT_MJD_AT_UNIX_EPOCH), rnd(y - GMAT_MJD_AT_UNIX_EPOCH);
    assert a <= b;
    assert rnd(a * NS_PER_DAY) <= rnd(b * NS_PER_DAY);
    HalfAwayMonotone(rnd(a * NS_PER_DAY), rnd(b * NS_PER_DAY), rnd);
  }

  // ---------------------------------------------------------------- the round trip under rounding

  ghost predicate Near(x: real, y: real, e: real) {
    -e <= x - y <= e
  }

  lemma RoundedWithin(x: real, bound: real, e: real, rnd: real -> real)
    requires Rounding(rnd) && Near(x, 0.0, bound) && ULP * bound <= e
    ensures Near(rnd(x), x, e)
  {
    assert Abs(rnd(x) - x) <= ULP * Abs(x) <= ULP * bound;
  }

  lemma Scaled(x: real, y: real, e: real, k: real)
    requires Near(x, y, e) && k > 0.0
    ensures Near(x * k, y * k, e * k)
  {
  }

  lemma HalfAwayWithin(x: real, bound: real, e: real, rnd: real -> real)
    requires Rounding(rnd) && Near(x, 0.0, bound) && ULP * (bound + 0.5) <= e
    ensures Near(HalfAway(x, rnd) as real, x, 0.5 + e)
  {
    if x >= 0.0 {
      RoundedWithin(x + 0.5, bound + 0.5, e, rnd);
    } else {
      RoundedWithin(x - 0.5, bound + 0.5, e, rnd);
    }
  }

  /** n ns, rounded, turned to days, rounded, shifted by E and rounded. */
  lemma ToDays(n: real, rnd: real -> real) returns (x: real, y: real, z: real)
    requires Rounding(rnd) && Near(n, 0.0, 2_000_000_000_100_000_000.0)
    ensures x == rnd(n) && y == rnd(x / NS_PER_DAY) && z == rnd(GMAT_MJD_AT_UNIX_EPOCH + y)
    ensures Near(x, n, 223.0)
    ensures Near(y, x / NS_PER_DAY, 0.000_000_000_002_6)
    ensures Near(z, GMAT_MJD_AT_UNIX_EPOCH + y, 0.000_000_000_003_8)
    ensures Near(y, 0.0, 23_149.0)
  {
    hide Rounding;
    x := rnd(n);
    RoundedWithin(n, 2_000_000_000_100_000_000.0, 223.0, rnd);
    assert Near(x / NS_PER_DAY, 0.0, 23_148.5);
    y := rnd(x / NS_PER_DAY);
    RoundedWithin(x / NS_PER_DAY, 23_148.5, 0.000_000_000_002_6, rnd);
    z := rnd(GMAT_MJD_AT_UNIX_EPOCH + y);
    RoundedWithin(GMAT_MJD_AT_UNIX_EPOCH + y, 33_737.0, 0.000_000_000_003_8, rnd);
  }

  /** To A1MJD: an error of less than 777 ns, scaled to days. */
  lemma ToA1MjdWithin(tai: int, rnd: real -> real)
    requires Rounding(rnd) && -2_000_000_000_000_000_000 <= tai <= 2_000_000_000_000_000_000
    ensures Near((ToA1Mjd(tai, rnd) - GMAT_MJD_AT_UNIX_EPOCH) * NS_PER_DAY, (tai + A1_MINUS_TAI_NS) as real, 777.0)
    ensures Near(ToA1Mjd(tai, rnd) - GMAT_MJD_AT_UNIX_EPOCH, 0.0, 23_149.5)
  {
    hide Rounding;
    var x, y, z := ToDays((tai + A1_MINUS_TAI_NS) as real, rnd);
    Scaled(y, x / NS_PER_DAY, 0.000_000_000_002_6, NS_PER_DAY);
    Scaled(z, GMAT_MJD_AT_UNIX_EPOCH + y, 0.000_000_000_003_8, NS_PER_DAY);
  }

  lemma FromDays(d: real, rnd: real -> real) returns (x: real, y: real)
    requires Rounding(rnd) && Near(d, 0.0, 23_149.5)
    ensures x == rnd(d) && y == rnd(x * NS_PER_DAY)
    ensures Near(x, d, 0.000_000_000_002_6)
    ensures Near(y, x * NS_PER_DAY, 223.0)
    ensures Near(y, 0.0, 2_000_300_000_000_000_000.0)
  {
    hide Rounding;
    x := rnd(d);
    RoundedWithin(d, 23_149.5, 0.000_000_000_002_6, rnd);
    assert Near(x * NS_PER_DAY, 0.0, 2_000_200_000_000_000_000.0);
    y := rnd(x * NS_PER_DAY);
    RoundedWithin(x * NS_PER_DAY, 2_000_200_000_000_000_000.0, 223.0, rnd);
  }

  /** Back from A1MJD: an error of less than 672 ns. */
  lemma FromA1MjdWithin(a1: real, rnd: real -> real)
    requires Rounding(rnd) && Near(a1 - GMAT_MJD_AT_UNIX_EPOCH, 0.0, 23_149.5)
    ensures Near((FromA1Mjd(a1, rnd) + A1_MINUS_TAI_NS) as real, (a1 - GMAT_MJD_AT_UNIX_EPOCH) * NS_PER_DAY, 672.0)
  {
    hide Rounding, HalfAway;
    var x, y := FromDays(a1 - GMAT_MJD_AT_UNIX_EPOCH, rnd);
    Scaled(x, a1 - GMAT_MJD_AT_UNIX_EPOCH, 0.000_000_000_002_6, NS_PER_DAY);
    HalfAwayWithin(y, 2_000_300_000_000_000_000.0, 223.0, rnd);
  }

  /** TAI to A1MJD and back is off by less than 2 microseconds for |tai| up to 2e18 ns (63 years). */
  lemma RoundTripWithin(tai: int, rnd: real -> real)
    requires Rounding(rnd) && -2_000_000_000_000_000_000 <= tai <= 2_000_000_000_000_000_000
    ensures -2_000 < FromA1Mjd(ToA1Mjd(tai, rnd), rnd) - tai < 2_000
  {
    ToA1MjdWithin(tai, rnd);
    FromA1MjdWithin(ToA1Mjd(tai, rnd), rnd);
  }

  /** Instants at least 4 microseconds apart keep distinct, ordered A1MJD values. */
  lemma InstantsStayApart(x: int, y: int, rnd: real -> real)
    requires Rounding(rnd) && -2_000_000_000_000_000_000 <= x && y <= 2_000_000_000_000_000_000 && y - x >= 4_000
    ensures ToA1Mjd(x, rnd) < ToA1Mjd(y, rnd)
  {
    ToA1MjdMonotone(x, y, rnd);
    RoundTripWithin(x, rnd);
    RoundTripWithin(y, rnd);
  }

  // ---------------------------------------------------------------- over the reals

  function Exactly(x: real): real { x }

  /** With exact arithmetic the TAI instant is a nearest integer, ties away from zero. */
  lemma ExactIsNearest(a1: real)
    ensures var ns := (a1 - GMAT_MJD_AT_UNIX_EPOCH) * NS_PER_DAY - A1_MINUS_TAI_NS as real;
      -0.5 <= FromA1Mjd(a1, Exactly) as real - ns <= 0.5
  {
  }

  lemma HalfAwayOfInteger(n: int)
    ensures HalfAway(n as real, Exactly) == n
  {
  }

  /** With exact arithmetic the round trip is the identity on every integer. */
  lemma ExactRoundTrip(tai: int)
    ensures FromA1Mjd(ToA1Mjd(tai, Exactly), Exactly) == tai
  {
    var n := tai + A1_MINUS_TAI_NS;
    assert (GMAT_MJD_AT_UNIX_EPOCH + n as real / NS_PER_DAY - GMAT_MJD_AT_UNIX_EPOCH) * NS_PER_DAY == n as real;
    HalfAwayOfInteger(n);
  }

  /** Where the conversions round: A1MJD is 10587.5 and the days of A1, as floating point computes them. */
  lemma RoundingSteps(tai: int, a1: real, rnd: real -> real)
    ensures ToA1Mjd(tai, rnd) == rnd(10_587.5 + rnd(rnd((tai + 34_381_700) as real) / 86_400_000_000_000.0))
    ensures var x := rnd(rnd(a1 - 10_587.5) * 86_400_000_000_000.0);
      FromA1Mjd(a1, rnd) + 34_381_700 == if x < 0.0 then -((-rnd(x - 0.5)).Floor) else rnd(x + 0.5).Floor
  {
  }

  /** Ties go away from zero. */
  lemma TiesGoAway(n: int)
    ensures HalfAway(n as real + 0.5, Exactly) == if n >= 0 then n + 1 else n
  {
  }

  /** The instant 34.3817 ms before the Unix epoch of TAI is A1MJD 10587.5, a day later is a unit later. */
  lemma FixedPoints()
    ensures ToA1Mjd(-34_381_700, Exactly) == 10_587.5 && FromA1Mjd(10_587.5, Exactly) == -34_381_700
    ensures ToA1Mjd(86_399_965_618_300, Exactly) == 10_588.5 && FromA1Mjd(10_588.5, Exactly) == 86_399_965_618_300
  {
  }

  /** A1MJD counts days of A1: the Unix epoch on the A1 scale is day 10587.5, and 24 hours are one day. */
  lemma DaysOfA1(days: int)
    ensures ToA1Mjd(days * 86_400_000_000_000 - A1_MINUS_TAI_NS, Exactly) == GMAT_MJD_AT_UNIX_EPOCH + days as real
  {
    assert (days * 86_400_000_000_000) as real == days as real * NS_PER_DAY;
  }
}
