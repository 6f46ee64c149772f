/**
 * The rounding arithmetic of market orders. Money is counted in cents, quantities in units of
 * 1e-8; intermediate values are exact reals.
 */
module TradingMath {

  import opened Wrappers

  type Cents = nat
  type Units = n: int | 0 < n witness 1

  const UNITS_PER_SHARE := 100000000.0

  /** `Math.round((value + 1e-9) * 100)` for a value of `cents / 100` euros. */
  function RoundCents(cents: real): int
  {
    (cents + 0.0000001 + 0.5).Floor
  }

  /** The largest distance between an amount and its rounding. */
  const ROUNDING_ERROR := 0.5 + 0.0000001

  /** What an order for `quantity` at `price` costs. */
  function ExecutionAmount(price: Cents, quantity: Units): int
  {
    RoundCents(price as real * (quantity as real / UNITS_PER_SHARE))
  }

  datatype Position = Position(quantity: Units, average: Cents)

  /** The unrounded mean of the old average and the new price, weighted by quantity. */
  function Mean(average: real, held: Units, price: Cents, bought: Units): real
  {
    (average * (held as real) + price as real * (bought as real)) / ((held + bought) as real)
  }

  function BuyMore(position: Position, price: Cents, quantity: Units): Position
  {
    MeanBetween(position.average as real, position.quantity, price, quantity,
                0.0, position.average as real + price as real);
    RoundCentsMonotone(0.0, Mean(position.average as real, position.quantity, price, quantity));
    Position(position.quantity + quantity,
             RoundCents(Mean(position.average as real, position.quantity, price, quantity)))
  }

  /** A remaining quantity at most 1e-9 is dropped. */
  predicate Negligible(remaining: int)
  {
    remaining as real / UNITS_PER_SHARE <= 0.000000001
  }

  datatype Trade = Buy(price: Cents, quantity: Units) | Sell(quantity: Units)

  function Held(position: Option<Position>): nat
  {
    if position.Some? then position.value.quantity else 0
  }

  /** What `buy` and `sell` leave of a position row; None when there is no row. */
  function AfterTrade(position: Option<Position>, trade: Trade): Option<Position>
    requires trade.Sell? ==> trade.quantity <= Held(position)
  {
    match trade
    case Buy(price, quantity) =>
      if position.None? then Some(Position(quantity, price))
      else Some(BuyMore(position.value, price, quantity))
    case Sell(quantity) =>
      var remaining := position.value.quantity - quantity;
      NegligibleIsZero(remaining);
      if Negligible(remaining) then None
      else Some(position.value.(quantity := remaining))
  }

  lemma RoundCentsBound(x: real)
    ensures -ROUNDING_ERROR <= RoundCents(x) as real - x <= ROUNDING_ERROR
  {
  }

  lemma RoundCentsMonotone(x: real, y: real)
    requires x <= y
    ensures RoundCents(x) <= RoundCents(y)
    ensures x >= 0.0 ==> RoundCents(x) >= 0
  {
  }

  /** Whole cents are left alone. */
  lemma RoundCentsWhole(n: int)
    ensures RoundCents(n as real) == n
  {
  }

  lemma ExecutionAmountNonNegative(price: Cents, quantity: Units)
    ensures ExecutionAmount(price, quantity) >= 0
  {
    ProductNonNegative(price as real, quantity as real / UNITS_PER_SHARE);
    RoundCentsMonotone(0.0, price as real * (quantity as real / UNITS_PER_SHARE));
  }

  lemma ProductNonNegative(x: real, y: real)
    requires x >= 0.0 && y >= 0.0
    ensures x * y >= 0.0
  {
  }

  /** Halves go up: the rounding is the one whole number of cents at most half a cent, and 1e-7, above. */
  lemma RoundCentsIff(x: real, n: int)
    ensures RoundCents(x) == n <==> n as real <= x + 0.5000001 < n as real + 1.0
  {
  }

  /** An order costs price times quantity, to the nearest cent. */
  lemma ExecutionAmountIsPriceTimesQuantity(price: Cents, quantity: Units, amount: int)
    ensures -ROUNDING_ERROR <= ExecutionAmount(price, quantity) as real - (price * quantity) as real / 100000000.0
         <= ROUNDING_ERROR
    ensures ExecutionAmount(price, quantity) == amount <==>
            amount as real <= (price * quantity) as real / 100000000.0 + 0.5000001 < amount as real + 1.0
  {
    assert price as real * (quantity as real / 100000000.0) == (price * quantity) as real / 100000000.0;
  }

  /** Whole shares cost exactly their price each. */
  lemma WholeSharesCostTheirPrice(price: Cents, shares: int)
    requires shares > 0
    ensures ExecutionAmount(price, shares * 100000000) == price * shares
  {
    assert (shares * 100000000) as real / UNITS_PER_SHARE == shares as real;
    assert price as real * shares as real == (price * shares) as real;
    RoundCentsWhole(price * shares);
  }

  /** `average` is the mean price of the shares held and of those bought, to the nearest cent. */
  predicate IsMean(average: int, position: Position, price: Cents, bought: Units)
  {
    var cost := position.average * position.quantity + price * bought;
    var shares := position.quantity + bought;
    -ROUNDING_ERROR * shares as real <= (average * shares - cost) as real <= ROUNDING_ERROR * shares as real
  }

  lemma AverageIsMean(position: Position, price: Cents, bought: Units)
    ensures IsMean(BuyMore(position, price, bought).average, position, price, bought)
  {
    var average, shares := BuyMore(position, price, bought).average, position.quantity + bought;
    var mean := Mean(position.average as real, position.quantity, price, bought);
    RoundCentsBound(mean);
    assert mean * shares as real == (position.average * position.quantity + price * bought) as real;
    Scale(-ROUNDING_ERROR, average as real - mean, shares as real);
    Scale(average as real - mean, ROUNDING_ERROR, shares as real);
  }

  /** With quantities of eight decimals the test drops a position at zero and only there. */
  lemma NegligibleIsZero(remaining: nat)
    ensures Negligible(remaining) <==> remaining == 0
  {
    if remaining >= 1 {
      assert remaining as real / UNITS_PER_SHARE >= 1.0 / UNITS_PER_SHARE;
    }
  }

  lemma MeanBetween(average: real, held: Units, price: Cents, bought: Units, low: real, high: real)
    requires low <= average <= high && low <= price as real <= high
    ensures low <= Mean(average, held, price, bought) <= high
  {
    var h, b, p := held as real, bought as real, price as real;
    Scale(low, average, h);
    Scale(average, high, h);
    Scale(low, p, b);
    Scale(p, high, b);
    Distribute(low, h, b);
    Distribute(high, h, b);
    assert (held + bought) as real == h + b;
    DivideBetween(average * h + p * b, h + b, low, high);
  }

  lemma Scale(x: real, y: real, factor: real)
    requires x <= y && factor >= 0.0
    ensures x * factor <= y * factor
  {
    ProductNonNegative(y - x, factor);
  }

  lemma Distribute(x: real, y: real, z: real)
    ensures x * (y + z) == x * y + x * z
  {
  }

  lemma DivideBetween(total: real, weight: real, low: real, high: real)
    requires weight > 0.0 && low * weight <= total <= high * weight
    ensures low <= total / weight <= high
  {
    var q := total / weight;
    Quotient(total, weight);
    if q < low {
      Shortfall(q, low, weight);
    }
    if q > high {
      Shortfall(high, q, weight);
    }
  }

  lemma Quotient(total: real, weight: real)
    requires weight > 0.0
    ensures total / weight * weight == total
  {
  }

  lemma Shortfall(x: real, y: real, factor: real)
    requires x < y && factor > 0.0
    ensures x * factor < y * factor
  {
  }
}
