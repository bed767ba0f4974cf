/**
 Money: wire values in taka, stored values in whole paisa, and percentages in
 basis points (app/core/money.py). Decimals are exact reals.
 */
module Money {

  /** Decimal's ROUND_HALF_UP: to the nearest integer, ties away from zero. */
  function RoundHalfUp(x: real): int
  {
    if x >= 0.0 then (x + 0.5).Floor else -((0.5 - x).Floor)
  }

  const MINOR: real := 100.0

  function ToMinor(amount: real): int { RoundHalfUp(amount * MINOR) }

  function ToMajor(minor: int): real { RoundHalfUp(minor as real / MINOR * 100.0) as real / 100.0 }

  /** The exact, unrounded percentage. */
  function Exact(minor: int, basisPoints: int): real
  {
    minor as real * basisPoints as real / 10_000.0
  }

  function PercentageOf(minor: int, basisPoints: int): int { RoundHalfUp(Exact(minor, basisPoints)) }

  lemma RoundHalfUpIsNearest(x: real)
    ensures -0.5 <= RoundHalfUp(x) as real - x <= 0.5
    ensures x >= 0.0 ==> -0.5 < RoundHalfUp(x) as real - x
    ensures x <= 0.0 ==> RoundHalfUp(x) as real - x < 0.5 || x == 0.0
  {
  }

  lemma RoundHalfUpMonotone(x: real, y: real)
    requires x <= y
    ensures RoundHalfUp(x) <= RoundHalfUp(y)
  {
  }

  lemma RoundHalfUpOfInt(n: int)
    ensures RoundHalfUp(n as real) == n
  {
  }

  /** Paisa survive the trip to the wire and back. */
  lemma MinorRoundTrip(minor: int)
    ensures ToMinor(ToMajor(minor)) == minor
  {
  }

  /** And a wire value comes back within half a paisa. */
  lemma MajorRoundTrip(amount: real)
    ensures -0.005 <= ToMajor(ToMinor(amount)) - amount <= 0.005
  {
    RoundHalfUpIsNearest(amount * MINOR);
    assert ToMinor(amount) as real / MINOR * 100.0 == ToMinor(amount) as real;
    RoundHalfUpOfInt(ToMinor(amount));
  }

  lemma NearestOfTenThousandth(product: int, rounded: int)
    requires -0.5 <= rounded as real - product as real / 10_000.0 <= 0.5
    ensures -5_000 <= 10_000 * rounded - product <= 5_000
  {
    assert -5_000.0 <= 10_000.0 * rounded as real - product as real <= 5_000.0;
  }

  /** A percentage is exact to the nearest paisa. */
  lemma PercentageIsNearest(minor: int, basisPoints: int)
    ensures -5_000 <= 10_000 * PercentageOf(minor, basisPoints) - minor * basisPoints <= 5_000
  {
    var product := minor * basisPoints;
    assert minor as real * basisPoints as real == product as real;
    assert Exact(minor, basisPoints) == product as real / 10_000.0;
    RoundHalfUpIsNearest(product as real / 10_000.0);
    NearestOfTenThousandth(product, PercentageOf(minor, basisPoints));
  }

  lemma ScaleMonotone(a: real, b: real, k: real)
    requires a <= b && 0.0 <= k
    ensures a * k <= b * k
  {
  }

  lemma TenThousandthMonotone(x: real, y: real)
    requires x <= y
    ensures x / 10_000.0 <= y / 10_000.0
  {
  }

  lemma Commutes(a: real, b: real)
    ensures a * b == b * a
  {
  }

  /** Monotone in the amount, at a rate that is not negative. */
  lemma PercentageMonotoneInAmount(a: int, b: int, basisPoints: nat)
    requires a <= b
    ensures PercentageOf(a, basisPoints) <= PercentageOf(b, basisPoints)
  {
    ScaleMonotone(a as real, b as real, basisPoints as real);
    TenThousandthMonotone(a as real * basisPoints as real, b as real * basisPoints as real);
    RoundHalfUpMonotone(Exact(a, basisPoints), Exact(b, basisPoints));
  }

  /** Monotone in the rate, for an amount that is not negative. */
  lemma PercentageMonotoneInRate(minor: nat, r: int, s: int)
    requires r <= s
    ensures PercentageOf(minor, r) <= PercentageOf(minor, s)
  {
    ScaleMonotone(r as real, s as real, minor as real);
    Commutes(minor as real, r as real);
    Commutes(minor as real, s as real);
    TenThousandthMonotone(minor as real * r as real, minor as real * s as real);
    RoundHalfUpMonotone(Exact(minor, r), Exact(minor, s));
  }

  /** A rate of at most 100% takes at most the amount. */
  lemma PercentageWithin(minor: nat, basisPoints: nat)
    requires basisPoints <= 10_000
    ensures 0 <= PercentageOf(minor, basisPoints) <= minor
  {
  }

  function Sum(amounts: seq<int>): int
  {
    if amounts == [] then 0 else Sum(amounts[..|amounts| - 1]) + amounts[|amounts| - 1]
  }

  function Percentages(amounts: seq<int>, basisPoints: int): seq<int>
  {
    seq(|amounts|, i requires 0 <= i < |amounts| => PercentageOf(amounts[i], basisPoints))
  }

  lemma ExactAdds(a: int, b: int, basisPoints: int)
    ensures Exact(a + b, basisPoints) == Exact(a, basisPoints) + Exact(b, basisPoints)
  {
  }

  lemma ExactNonNegative(minor: nat, basisPoints: nat)
    ensures Exact(minor, basisPoints) >= 0.0
  {
  }

  lemma {:induction false} SumNonNegative(amounts: seq<int>)
    requires forall i :: 0 <= i < |amounts| ==> amounts[i] >= 0
    ensures Sum(amounts) >= 0
  {
    if amounts != [] { SumNonNegative(amounts[..|amounts| - 1]); }
  }

  /** Line by line, each rounding errs by at most half a paisa. */
  lemma {:induction false} LineErrorsAdd(amounts: seq<int>, basisPoints: nat)
    requires forall i :: 0 <= i < |amounts| ==> amounts[i] >= 0
    ensures
      var error := Sum(Percentages(amounts, basisPoints)) as real - Exact(Sum(amounts), basisPoints);
      && error <= |amounts| as real * 0.5
      && -(|amounts| as real) * 0.5 <= error
      && (amounts != [] ==> -(|amounts| as real) * 0.5 < error)
  {
    if amounts != [] {
      var n := |amounts| - 1;
      var front := amounts[..n];
      LineErrorsAdd(front, basisPoints);
      assert Percentages(amounts, basisPoints)[..n] == Percentages(front, basisPoints);
      ExactAdds(Sum(front), amounts[n], basisPoints);
      ExactNonNegative(amounts[n], basisPoints);
      RoundHalfUpIsNearest(Exact(amounts[n], basisPoints));
    }
  }

  /** Charging line by line at one rate differs from charging the whole by at most
      n/2 paisa for n lines. */
  lemma LineByLineVersusWhole(amounts: seq<int>, basisPoints: nat)
    requires forall i :: 0 <= i < |amounts| ==> amounts[i] >= 0
    ensures
      var difference := Sum(Percentages(amounts, basisPoints)) - PercentageOf(Sum(amounts), basisPoints);
      -|amounts| <= 2 * difference <= |amounts|
  {
    LineErrorsAdd(amounts, basisPoints);
    SumNonNegative(amounts);
    ExactNonNegative(Sum(amounts), basisPoints);
    RoundHalfUpIsNearest(Exact(Sum(amounts), basisPoints));
    if amounts == [] {
      RoundHalfUpOfInt(0);
    } else {
      var d := Sum(Percentages(amounts, basisPoints)) - PercentageOf(Sum(amounts), basisPoints);
      assert d as real < |amounts| as real * 0.5 + 0.5;
      assert d as real > -(|amounts| as real) * 0.5 - 0.5;
      assert (2 * d) as real < (|amounts| + 1) as real;
      assert (2 * d) as real > (-|amounts| - 1) as real;
    }
  }
}
