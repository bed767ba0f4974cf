/**
 The bill (app/services/pricing.py): the delivery fee and its inverse, and the
 quote that orders persist. Money is whole paisa; distances are exact reals.
 */
module Pricing {
  import opened Options
  import opened Money
  import opened Commission

  /** Python's `round`: to the nearest integer, ties to the even one. */
  function Round(x: real): int
  {
    var below := x.Floor;
    var part := x - below as real;
    if part < 0.5 || (part == 0.5 && below % 2 == 0) then below else below + 1
  }

  lemma RoundIsNearest(x: real)
    ensures -0.5 <= Round(x) as real - x <= 0.5
    ensures x.Floor <= Round(x)
    ensures x - x.Floor as real == 0.5 ==> Round(x) % 2 == 0
  {
  }

  lemma RoundMonotone(x: real, y: real)
    requires x <= y
    ensures Round(x) <= Round(y)
  {
  }

  // --- Delivery ---------------------------------------------------------------------

  datatype DeliveryFees = DeliveryFees(base: int, perKm: int, minimum: int, surcharge: int, priority: int)

  predicate NonNegative(fees: DeliveryFees)
  {
    fees.base >= 0 && fees.perKm >= 0 && fees.minimum >= 0 && fees.surcharge >= 0 && fees.priority >= 0
  }

  function Max(a: int, b: int): int { if a >= b then a else b }

  function Metres(distanceKm: real): int { Max(0, Round(distanceKm * 1000.0)) }

  /** The fee for so many whole metres, before the free-delivery threshold. */
  function FeeForMetres(metres: int, fees: DeliveryFees): int
  {
    Max(fees.base + (fees.perKm * metres + 500) / 1000, fees.minimum) + fees.surcharge
  }

  /** `threshold` is in whole taka; 0 switches the promotion off. */
  function DeliveryFee(distanceKm: real, itemTotal: int, fees: DeliveryFees, threshold: int): int
  {
    if threshold != 0 && itemTotal >= ToMinor(threshold as real) then 0
    else FeeForMetres(Metres(distanceKm), fees)
  }

  /** The farthest distance whose fee fits the budget: None when every distance
      does, a negative value when none does. */
  function DeliveryReach(budget: int, fees: DeliveryFees): Option<real>
  {
    var headroom := budget - fees.surcharge;
    if headroom < Max(fees.base, fees.minimum) then Some(-1.0)
    else if fees.perKm == 0 then None
    else Some((headroom - fees.base) as real / fees.perKm as real)
  }

  lemma ProductGrows(p: int, a: int, b: int)
    requires 0 <= p && a <= b
    ensures p * a <= p * b
  {
  }

  lemma FeeNonNegative(distanceKm: real, itemTotal: int, fees: DeliveryFees, threshold: int)
    requires NonNegative(fees)
    ensures DeliveryFee(distanceKm, itemTotal, fees, threshold) >= 0
  {
  }

  /** Going farther never costs less. */
  lemma FeeGrowsWithDistance(near: real, far: real, itemTotal: int, fees: DeliveryFees, threshold: int)
    requires near <= far && NonNegative(fees)
    ensures DeliveryFee(near, itemTotal, fees, threshold) <= DeliveryFee(far, itemTotal, fees, threshold)
  {
    RoundMonotone(near * 1000.0, far * 1000.0);
    ProductGrows(fees.perKm, Metres(near), Metres(far));
  }

  lemma BelowQuotient(m: real, x: real, p: real)
    requires p > 0.0 && m * p < x
    ensures m < x / p
  {
    var q := x / p;
    assert q * p == x;
    if q <= m { ScaleMonotone(q, m, p); }
  }

  lemma QuotientTimes(h: real, p: real, d: real)
    requires p > 0.0 && d <= h / p
    ensures p * d <= h
  {
  }

  lemma Distribute(d: real, p: real)
    ensures (d * 1000.0 + 0.5) * p == 1000.0 * (p * d) + 0.5 * p
  {
  }

  lemma MetresCostExact(p: real, m: real, spare: real, distanceKm: real)
    requires p >= 0.0 && p * distanceKm <= spare && m <= distanceKm * 1000.0 + 0.5
    ensures m * p <= 1000.0 * spare + 0.5 * p
  {
    ScaleMonotone(m, distanceKm * 1000.0 + 0.5, p);
    Distribute(distanceKm, p);
  }

  lemma MetresCost(p: int, m: int, spare: int, distanceKm: real)
    requires p >= 0 && p as real * distanceKm <= spare as real && m as real <= distanceKm * 1000.0 + 0.5
    ensures 2 * (p * m) <= 2000 * spare + p
  {
    MetresCostExact(p as real, m as real, spare as real, distanceKm);
    var product := p * m;
    assert product as real == m as real * p as real;
    assert (2 * product) as real <= (2000 * spare + p) as real;
  }

  lemma RoundedCost(cost: int, spare: int, p: int)
    requires 2 * cost <= 2000 * spare + p
    ensures (cost + 500) / 1000 <= spare + (p + 1000) / 2000
  {
  }

  /** Inside the reach the fee is over budget by at most the rounding of a metre,
      which is nothing at all below 1000 paisa a kilometre. */
  lemma WithinReachFits(budget: int, fees: DeliveryFees, distanceKm: real, itemTotal: int)
    requires NonNegative(fees) && distanceKm >= 0.0
    requires DeliveryReach(budget, fees).Some? && distanceKm <= DeliveryReach(budget, fees).value
    ensures DeliveryFee(distanceKm, itemTotal, fees, 0) <= budget + (fees.perKm + 1000) / 2000
    ensures fees.perKm < 1000 ==> DeliveryFee(distanceKm, itemTotal, fees, 0) <= budget
  {
    var spare := budget - fees.surcharge - fees.base;
    var m, p := Metres(distanceKm), fees.perKm;
    QuotientTimes(spare as real, p as real, distanceKm);
    RoundIsNearest(distanceKm * 1000.0);
    assert m as real <= distanceKm * 1000.0 + 0.5;
    MetresCost(p, m, spare, distanceKm);
    RoundedCost(p * m, spare, p);
  }

  /** A distance whose fee fits is inside the reach, but for half a metre of
      rounding and the metres that half a paisa buys. */
  lemma FitsIsNearReach(budget: int, fees: DeliveryFees, distanceKm: real, itemTotal: int)
    requires NonNegative(fees) && fees.perKm > 0
    requires DeliveryFee(distanceKm, itemTotal, fees, 0) <= budget
    ensures DeliveryReach(budget, fees).Some?
    ensures distanceKm * 1000.0 < DeliveryReach(budget, fees).value * 1000.0 + 500.0 / fees.perKm as real + 0.5
  {
    var spare := budget - fees.surcharge - fees.base;
    var m, p := Metres(distanceKm), fees.perKm;
    ProductGrows(p, 0, m);
    RoundIsNearest(distanceKm * 1000.0);
    assert (p * m + 500) / 1000 <= spare;
    assert p * m < 1000 * spare + 500;
    MetresBelow(p, m, spare);
  }

  /** Metres that cost less than the spare paisa and a half. */
  lemma MetresBelow(p: int, m: int, spare: int)
    requires p > 0 && p * m < 1000 * spare + 500
    ensures m as real < spare as real / p as real * 1000.0 + 500.0 / p as real
  {
    var cost := p * m;
    assert cost as real == m as real * p as real;
    BelowQuotient(m as real, 1000.0 * spare as real + 500.0, p as real);
    QuotientSplits(spare as real, p as real);
  }

  lemma QuotientSplits(h: real, p: real)
    requires p > 0.0
    ensures (1000.0 * h + 500.0) / p == h / p * 1000.0 + 500.0 / p
  {
    var q := h / p;
    assert q * p == h;
    assert (q * 1000.0 + 500.0 / p) * p == 1000.0 * h + 500.0;
  }

  /** A negative reach means no distance fits; None means every one does. */
  lemma ReachExtremes(budget: int, fees: DeliveryFees, distanceKm: real, itemTotal: int)
    requires NonNegative(fees)
    ensures
      var reach := DeliveryReach(budget, fees);
      && (reach.Some? && reach.value < 0.0 ==> DeliveryFee(distanceKm, itemTotal, fees, 0) > budget)
      && (reach.None? ==> DeliveryFee(distanceKm, itemTotal, fees, 0) <= budget)
      && (reach.Some? && reach.value < 0.0 <==> DeliveryFee(0.0, itemTotal, fees, 0) > budget)
  {
  }

  // --- Exactly when the reach is the inverse ----------------------------------------

  /** What the budget leaves for distance. */
  function Spare(budget: int, fees: DeliveryFees): int { budget - fees.surcharge - fees.base }

  /** So many metres cost no more than that, to the nearest paisa. */
  predicate MetresFit(metres: int, budget: int, fees: DeliveryFees)
  {
    fees.perKm * metres < 1000 * Spare(budget, fees) + 500
  }

  /** Where the base and the minimum fit, a distance fits exactly when its metres do. */
  lemma FitsIffMetresFit(budget: int, fees: DeliveryFees, distanceKm: real, itemTotal: int)
    requires NonNegative(fees) && Max(fees.base, fees.minimum) <= budget - fees.surcharge
    ensures DeliveryFee(distanceKm, itemTotal, fees, 0) <= budget <==> MetresFit(Metres(distanceKm), budget, fees)
  {
    var cost := fees.perKm * Metres(distanceKm);
    assert (cost + 500) / 1000 <= Spare(budget, fees) <==> cost < 1000 * Spare(budget, fees) + 500;
  }

  lemma FewerMetresFit(near: int, far: int, budget: int, fees: DeliveryFees)
    requires NonNegative(fees) && near <= far && MetresFit(far, budget, fees)
    ensures MetresFit(near, budget, fees)
  {
    ProductGrows(fees.perKm, near, far);
  }

  /** The reach, in metres. */
  function ReachMetres(budget: int, fees: DeliveryFees): real
    requires fees.perKm > 0
  {
    Spare(budget, fees) as real / fees.perKm as real * 1000.0
  }

  lemma ReachIs(budget: int, fees: DeliveryFees)
    requires NonNegative(fees) && fees.perKm > 0 && Max(fees.base, fees.minimum) <= budget - fees.surcharge
    ensures DeliveryReach(budget, fees) == Some(Spare(budget, fees) as real / fees.perKm as real)
    ensures ReachMetres(budget, fees) >= 0.0
  {
    assert Spare(budget, fees) as real >= 0.0 && fees.perKm as real > 0.0;
  }

  ghost predicate AllWithinFit(budget: int, fees: DeliveryFees)
  {
    var reach := DeliveryReach(budget, fees);
    reach.Some? && forall d: real :: d <= reach.value ==> DeliveryFee(d, 0, fees, 0) <= budget
  }

  ghost predicate NoneBeyondFits(budget: int, fees: DeliveryFees)
  {
    var reach := DeliveryReach(budget, fees);
    reach.Some? && forall d: real :: d > reach.value ==> DeliveryFee(d, 0, fees, 0) > budget
  }

  /** Every distance within the reach fits the budget if and only if the reach,
      rounded to a whole metre, does. */
  lemma AllWithinFitIff(budget: int, fees: DeliveryFees)
    requires NonNegative(fees) && fees.perKm > 0 && Max(fees.base, fees.minimum) <= budget - fees.surcharge
    ensures AllWithinFit(budget, fees) <==> MetresFit(Round(ReachMetres(budget, fees)), budget, fees)
  {
    ReachIs(budget, fees);
    var reach := DeliveryReach(budget, fees).value;
    RoundMonotone(0.0, reach * 1000.0);
    assert Metres(reach) == Round(ReachMetres(budget, fees));
    FitsIffMetresFit(budget, fees, reach, 0);
    if MetresFit(Metres(reach), budget, fees) {
      forall d: real | d <= reach
        ensures DeliveryFee(d, 0, fees, 0) <= budget
      {
        FitsIffMetresFit(budget, fees, d, 0);
        RoundMonotone(d * 1000.0, reach * 1000.0);
        FewerMetresFit(Metres(d), Metres(reach), budget, fees);
      }
    }
  }

  /** The least whole metre that a distance beyond `x` metres rounds to. */
  function NextMetre(x: real): int { (x + 0.5).Floor }

  lemma BeyondRoundsUp(x: real, y: real)
    requires x < y
    ensures Round(y) >= NextMetre(x)
  {
  }

  /** And some distance beyond it rounds to just that. */
  lemma SomeBeyondRoundsTo(x: real) returns (y: real)
    ensures y > x && Round(y) == NextMetre(x)
  {
    var k := NextMetre(x);
    y := (x + k as real + 0.5) / 2.0;
    assert x < k as real + 0.5 && k as real - 0.5 <= x;
    assert k as real - 0.5 < y < k as real + 0.5;
    RoundsTo(y, k);
  }

  lemma RoundsTo(y: real, k: int)
    requires k as real - 0.5 < y < k as real + 0.5
    ensures Round(y) == k
  {
    if y < k as real { assert y.Floor == k - 1; } else { assert y.Floor == k; }
  }

  /** No distance beyond the reach fits if and only if the first whole metre beyond
      it does not. */
  lemma NoneBeyondFitsIff(budget: int, fees: DeliveryFees)
    requires NonNegative(fees) && fees.perKm > 0 && Max(fees.base, fees.minimum) <= budget - fees.surcharge
    ensures NoneBeyondFits(budget, fees) <==> !MetresFit(NextMetre(ReachMetres(budget, fees)), budget, fees)
  {
    ReachIs(budget, fees);
    var reach, x := DeliveryReach(budget, fees).value, ReachMetres(budget, fees);
    var first := NextMetre(x);
    assert first >= 0;
    if MetresFit(first, budget, fees) {
      var y := SomeBeyondRoundsTo(x);
      var d := y / 1000.0;
      assert d * 1000.0 == y && d > reach && Metres(d) == first;
      FitsIffMetresFit(budget, fees, d, 0);
    } else {
      forall d: real | d > reach
        ensures DeliveryFee(d, 0, fees, 0) > budget
      {
        assert d * 1000.0 > x;
        BeyondRoundsUp(x, d * 1000.0);
        if MetresFit(Metres(d), budget, fees) { FewerMetresFit(first, Metres(d), budget, fees); }
        FitsIffMetresFit(budget, fees, d, 0);
      }
    }
  }

  /** Inside the reach a distance can cost more than the budget: with 4 paisa to spare
      at 2500 a kilometre the reach is 1.6 m, two metres, which cost 5. */
  lemma WithinReachCanExceed()
    ensures
      var fees := DeliveryFees(1000, 2500, 0, 0, 0);
      DeliveryReach(1004, fees) == Some(0.0016) && DeliveryFee(0.0016, 0, fees, 0) == 1005
  {
    RoundsTo(1.6, 2);
    assert 0.0016 * 1000.0 == 1.6;
  }

  /** `delivery_reach_km` calls its answer the farthest distance that fits. A
      little beyond it can still fit: with nothing to spare over a base of 1000,
      the reach is 0 and yet 0.4 m costs the same. */
  lemma ReachIsNotFarthest()
    ensures
      var fees := DeliveryFees(1000, 800, 0, 0, 0);
      && DeliveryReach(1000, fees) == Some(0.0)
      && DeliveryFee(0.0004, 0, fees, 0) <= 1000
  {
  }

  // --- The quote ------------------------------------------------------------------------

  datatype QuoteLine = QuoteLine(quantity: int, unitPrice: int, addOnsTotal: int, rate: Option<real>)

  datatype DeliveryType = STANDARD | PRIORITY

  datatype Quote = Quote(
    itemTotal: int, deliveryFee: int, priorityFee: int, platformFee: int,
    discount: int, tip: int, grandTotal: int, commission: int, deliveryType: DeliveryType)

  function LineTotal(line: QuoteLine): int { (line.unitPrice + line.addOnsTotal) * line.quantity }

  function BasisPoints(lineRate: Option<real>, restaurantRate: real): int
  {
    Round((if lineRate.None? then restaurantRate else lineRate.value) * 10_000.0)
  }

  function LineTotals(lines: seq<QuoteLine>): seq<int>
  {
    seq(|lines|, i requires 0 <= i < |lines| => LineTotal(lines[i]))
  }

  function LineCommission(line: QuoteLine, restaurantRate: real): int
  {
    PercentageOf(LineTotal(line), BasisPoints(line.rate, restaurantRate))
  }

  function LineCommissions(lines: seq<QuoteLine>, restaurantRate: real): seq<int>
  {
    seq(|lines|, i requires 0 <= i < |lines| => LineCommission(lines[i], restaurantRate))
  }

  function Clamp(discount: int, most: int): int
  {
    Max(0, if discount <= most then discount else most)
  }

  function QuoteFor(lines: seq<QuoteLine>, distanceKm: real, restaurantRate: real, discount: int, tip: int,
                    fees: DeliveryFees, deliveryType: DeliveryType, platformRate: int, threshold: int): Quote
  {
    var itemTotal := Sum(LineTotals(lines));
    var deliveryFee := DeliveryFee(distanceKm, itemTotal, fees, threshold);
    var priorityFee := if deliveryType == PRIORITY then fees.priority else 0;
    var platform := PercentageOf(itemTotal, platformRate);
    var subtotal := itemTotal + deliveryFee + priorityFee + platform + tip;
    var taken := Clamp(discount, subtotal);
    Quote(itemTotal, deliveryFee, priorityFee, platform, taken, tip, subtotal - taken,
          Sum(LineCommissions(lines, restaurantRate)), deliveryType)
  }

  /** The CHECK constraints of the orders table; new orders write 0 packaging and
      tax. */
  predicate OrderChecks(q: Quote)
  {
    && q.itemTotal >= 0 && q.deliveryFee >= 0 && q.discount >= 0 && q.tip >= 0
    && q.platformFee >= 0 && q.commission >= 0 && q.grandTotal >= 0 && q.priorityFee >= 0
    && q.grandTotal == q.itemTotal + q.deliveryFee + q.priorityFee + 0 + 0 + q.platformFee + q.tip - q.discount
    && (q.deliveryType == PRIORITY || q.priorityFee == 0)
    && q.commission <= q.itemTotal
  }

  predicate Fraction(rate: real) { 0.0 <= rate <= 1.0 }

  predicate ValidLine(line: QuoteLine)
  {
    line.quantity >= 0 && line.unitPrice >= 0 && line.addOnsTotal >= 0
    && (line.rate.Some? ==> Fraction(line.rate.value))
  }

  lemma BasisPointsInRange(lineRate: Option<real>, restaurantRate: real)
    requires Fraction(restaurantRate) && (lineRate.Some? ==> Fraction(lineRate.value))
    ensures 0 <= BasisPoints(lineRate, restaurantRate) <= 10_000
  {
  }

  /** A rate stored to four decimal places is charged exactly. */
  lemma StoredRateIsExact(k: int, restaurantRate: real)
    ensures BasisPoints(Some(k as real / 10_000.0), restaurantRate) == k
  {
  }

  lemma LineInRange(line: QuoteLine, restaurantRate: real)
    requires ValidLine(line) && Fraction(restaurantRate)
    ensures 0 <= LineCommission(line, restaurantRate) <= LineTotal(line)
  {
    ProductGrows(line.quantity, 0, line.unitPrice + line.addOnsTotal);
    BasisPointsInRange(line.rate, restaurantRate);
    PercentageWithin(LineTotal(line), BasisPoints(line.rate, restaurantRate));
  }

  lemma {:induction false} CommissionWithinItems(lines: seq<QuoteLine>, restaurantRate: real)
    requires Fraction(restaurantRate) && forall i :: 0 <= i < |lines| ==> ValidLine(lines[i])
    ensures 0 <= Sum(LineCommissions(lines, restaurantRate)) <= Sum(LineTotals(lines))
  {
    if lines != [] {
      var n := |lines| - 1;
      CommissionWithinItems(lines[..n], restaurantRate);
      LineInRange(lines[n], restaurantRate);
      assert LineTotals(lines)[..n] == LineTotals(lines[..n]);
      assert LineCommissions(lines, restaurantRate)[..n] == LineCommissions(lines[..n], restaurantRate);
    }
  }

  /** Every quote can be persisted: it satisfies the order table's checks. */
  lemma QuoteSatisfiesChecks(lines: seq<QuoteLine>, distanceKm: real, restaurantRate: real, discount: int, tip: nat,
                             fees: DeliveryFees, deliveryType: DeliveryType, platformRate: nat, threshold: int)
    requires Fraction(restaurantRate) && NonNegative(fees) && forall i :: 0 <= i < |lines| ==> ValidLine(lines[i])
    ensures OrderChecks(
      QuoteFor(lines, distanceKm, restaurantRate, discount, tip, fees, deliveryType, platformRate, threshold))
  {
    CommissionWithinItems(lines, restaurantRate);
    var itemTotal := Sum(LineTotals(lines));
    FeeNonNegative(distanceKm, itemTotal, fees, threshold);
    PercentageMonotoneInRate(itemTotal, 0, platformRate);
    RoundHalfUpOfInt(0);
  }

  /** The customer pays the bill less the discount, and never less than nothing; a
      discount is charged as asked unless it is negative or exceeds the bill. */
  lemma DiscountClamped(lines: seq<QuoteLine>, distanceKm: real, restaurantRate: real, discount: int, tip: nat,
                        fees: DeliveryFees, deliveryType: DeliveryType, platformRate: nat, threshold: int)
    requires Fraction(restaurantRate) && NonNegative(fees) && forall i :: 0 <= i < |lines| ==> ValidLine(lines[i])
    ensures
      var q := QuoteFor(lines, distanceKm, restaurantRate, discount, tip, fees, deliveryType, platformRate, threshold);
      var bill := q.grandTotal + q.discount;
      && (discount <= 0 ==> q.discount == 0 && q.grandTotal == bill)
      && (0 <= discount <= bill ==> q.discount == discount)
      && (discount >= bill ==> q.discount == bill && q.grandTotal == 0)
  {
    QuoteSatisfiesChecks(lines, distanceKm, restaurantRate, discount, tip, fees, deliveryType, platformRate, threshold);
  }

  /** The platform's percentage is of the items alone, to the nearest paisa; the tip
      is passed on as given. */
  lemma PlatformTakesItemsOnly(lines: seq<QuoteLine>, distanceKm: real, restaurantRate: real, discount: int, tip: int,
                               fees: DeliveryFees, deliveryType: DeliveryType, platformRate: int, threshold: int)
    ensures
      var q := QuoteFor(lines, distanceKm, restaurantRate, discount, tip, fees, deliveryType, platformRate, threshold);
      q.tip == tip && -5_000 <= 10_000 * q.platformFee - q.itemTotal * platformRate <= 5_000
  {
    PercentageIsNearest(Sum(LineTotals(lines)), platformRate);
  }

  /** Free delivery waives the delivery fee and not the priority fee. */
  lemma ThresholdSparesPriority(lines: seq<QuoteLine>, distanceKm: real, restaurantRate: real, discount: int, tip: int,
                                fees: DeliveryFees, platformRate: int, threshold: int)
    ensures
      var q := QuoteFor(lines, distanceKm, restaurantRate, discount, tip, fees, PRIORITY, platformRate, threshold);
      q.priorityFee == fees.priority && (threshold > 0 && q.itemTotal >= threshold * 100 ==> q.deliveryFee == 0)
  {
  }

  // --- The quote in its own fields ---------------------------------------------------

  /** A line costs its dish and add-ons as often as it is ordered, and is charged at the
      rate set for the dish, else for its category, else for the restaurant: the rate
      to the nearest basis point, the commission to the nearest paisa. */
  lemma LineChargedAtResolvedRate(line: QuoteLine, product: Option<real>, category: Option<real>,
                                  distanceKm: real, restaurantRate: real, discount: int, tip: int, fees: DeliveryFees,
                                  deliveryType: DeliveryType, platformRate: int, threshold: int) returns (bps: int)
    requires line.rate == LineRateOf(product, category)
    ensures
      var rate := if product.Some? then product.value else if category.Some? then category.value else restaurantRate;
      Resolve(product, category, restaurantRate).0 == rate && -0.5 <= bps as real - rate * 10_000.0 <= 0.5
    ensures
      var q :=
        QuoteFor([line], distanceKm, restaurantRate, discount, tip, fees, deliveryType, platformRate, threshold);
      var cost := (line.unitPrice + line.addOnsTotal) * line.quantity;
      q.itemTotal == cost && -5_000 <= 10_000 * q.commission - cost * bps <= 5_000
  {
    bps := BasisPoints(line.rate, restaurantRate);
    OneTotal(line);
    OneCommission(line, restaurantRate);
    PercentageIsNearest(LineTotal(line), bps);
  }

  lemma OneTotal(line: QuoteLine)
    ensures Sum(LineTotals([line])) == LineTotal(line)
  {
    assert LineTotals([line]) == [] + [LineTotal(line)];
    SumAppended([], LineTotal(line));
  }

  lemma OneCommission(line: QuoteLine, restaurantRate: real)
    ensures Sum(LineCommissions([line], restaurantRate)) == LineCommission(line, restaurantRate)
  {
    assert LineCommissions([line], restaurantRate) == [] + [LineCommission(line, restaurantRate)];
    SumAppended([], LineCommission(line, restaurantRate));
  }

  lemma SumAppended(amounts: seq<int>, amount: int)
    ensures Sum(amounts + [amount]) == Sum(amounts) + amount
  {
    assert (amounts + [amount])[..|amounts|] == amounts;
  }

  /** Lines add up, in cost and in commission, each rounded by itself; an empty cart
      costs nothing and is charged nothing. */
  lemma LinesAddUp(lines: seq<QuoteLine>, line: QuoteLine, distanceKm: real, restaurantRate: real, discount: int,
                   tip: int, fees: DeliveryFees, kind: DeliveryType, platformRate: int, threshold: int)
    ensures
      var some :=
        QuoteFor(lines, distanceKm, restaurantRate, discount, tip, fees, kind, platformRate, threshold);
      var one :=
        QuoteFor([line], distanceKm, restaurantRate, discount, tip, fees, kind, platformRate, threshold);
      var all :=
        QuoteFor(lines + [line], distanceKm, restaurantRate, discount, tip, fees, kind, platformRate, threshold);
      && all.itemTotal == some.itemTotal + one.itemTotal && all.commission == some.commission + one.commission
      && (lines == [] ==> some.itemTotal == 0 && some.commission == 0)
  {
    OneTotal(line);
    OneCommission(line, restaurantRate);
    assert LineTotals(lines + [line]) == LineTotals(lines) + [LineTotal(line)];
    assert LineCommissions(lines + [line], restaurantRate)
        == LineCommissions(lines, restaurantRate) + [LineCommission(line, restaurantRate)];
    SumAppended(LineTotals(lines), LineTotal(line));
    SumAppended(LineCommissions(lines, restaurantRate), LineCommission(line, restaurantRate));
  }

  /** A promotion never cuts what the restaurant earns: whatever the discount, the tip,
      the distance and the fees, the items cost the same and are charged the same. */
  lemma EarningsIgnoreDiscount(lines: seq<QuoteLine>, restaurantRate: real, a: real, b: real, discountA: int,
                               discountB: int, tipA: int, tipB: int, feesA: DeliveryFees, feesB: DeliveryFees,
                               typeA: DeliveryType, typeB: DeliveryType, platformRate: int, threshold: int)
    ensures
      var p := QuoteFor(lines, a, restaurantRate, discountA, tipA, feesA, typeA, platformRate, threshold);
      var q := QuoteFor(lines, b, restaurantRate, discountB, tipB, feesB, typeB, platformRate, threshold);
      p.itemTotal == q.itemTotal && p.commission == q.commission && p.platformFee == q.platformFee
  {
  }

  /** Delivery is free exactly from the threshold on, in taka. Below it the customer
      pays the base and the distance, whole metres to the nearest paisa, or the minimum
      if that is more, and the surcharge on top; and the priority fee only if asked. */
  lemma DeliveryInFields(lines: seq<QuoteLine>, distanceKm: real, restaurantRate: real, discount: int, tip: int,
                         fees: DeliveryFees, deliveryType: DeliveryType, platformRate: int, threshold: int)
    returns (metres: nat, metered: int)
    ensures distanceKm >= 0.0 ==> -0.5 <= metres as real - distanceKm * 1000.0 <= 0.5
    ensures -500 <= 1000 * metered - fees.perKm * metres <= 500
    ensures
      var q := QuoteFor(lines, distanceKm, restaurantRate, discount, tip, fees, deliveryType, platformRate, threshold);
      && q.deliveryType == deliveryType && q.priorityFee == (if deliveryType == PRIORITY then fees.priority else 0)
      && (threshold != 0 && q.itemTotal >= 100 * threshold ==> q.deliveryFee == 0)
      && (threshold == 0 || q.itemTotal < 100 * threshold ==>
            && q.deliveryFee >= fees.surcharge + fees.minimum
            && q.deliveryFee >= fees.surcharge + fees.base + metered
            && q.deliveryFee in {fees.surcharge + fees.minimum, fees.surcharge + fees.base + metered})
  {
    metres := Metres(distanceKm);
    metered := (fees.perKm * metres + 500) / 1000;
    RoundHalfUpOfInt(threshold * 100);
    assert threshold as real * 100.0 == (threshold * 100) as real;
  }
}
