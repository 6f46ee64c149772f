/** Runs of buys and sells on one position: quantities are exact, the stored average drifts boundedly. */
module Positions {

  import opened Wrappers
  import opened TradingMath

  /** Every sell finds the quantity it sells. */
  predicate Covered(start: Option<Position>, trades: seq<Trade>)
    decreases |trades|, 0
  {
    |trades| == 0 ||
    (var earlier := trades[..|trades| - 1];
     Covered(start, earlier) &&
     (trades[|trades| - 1].Sell? ==> trades[|trades| - 1].quantity <= Held(After(start, earlier))))
  }

  /** The position row after a run of trades. */
  function After(start: Option<Position>, trades: seq<Trade>): Option<Position>
    requires Covered(start, trades)
    decreases |trades|, 1
  {
    if |trades| == 0 then start
    else AfterTrade(After(start, trades[..|trades| - 1]), trades[|trades| - 1])
  }

  function Bought(trades: seq<Trade>): nat
  {
    if |trades| == 0 then 0
    else Bought(trades[..|trades| - 1]) +
         (match trades[|trades| - 1] case Buy(_, quantity) => quantity case Sell(_) => 0)
  }

  function Sold(trades: seq<Trade>): nat
  {
    if |trades| == 0 then 0
    else Sold(trades[..|trades| - 1]) +
         (match trades[|trades| - 1] case Buy(_, _) => 0 case Sell(quantity) => quantity)
  }

  /** Held quantities are exactly buys minus sells, and a row exists only for a positive quantity. */
  lemma {:induction false} HeldIsBoughtMinusSold(start: Option<Position>, trades: seq<Trade>)
    requires Covered(start, trades)
    ensures Held(After(start, trades)) == Held(start) + Bought(trades) - Sold(trades)
    ensures After(start, trades).Some? <==> Held(start) + Bought(trades) > Sold(trades)
  {
    if |trades| > 0 {
      var earlier := trades[..|trades| - 1];
      HeldIsBoughtMinusSold(start, earlier);
      if trades[|trades| - 1].Sell? {
        NegligibleIsZero(Held(After(start, earlier)) - trades[|trades| - 1].quantity);
      }
    }
  }

  /** A run that opens a position and never closes it: every non-empty prefix leaves a row. */
  predicate OpenThroughout(trades: seq<Trade>)
  {
    |trades| > 0 && Covered(None, trades) && After(None, trades).Some? &&
    (|trades| > 1 ==> OpenThroughout(trades[..|trades| - 1]))
  }

  lemma OpensWithBuy(trades: seq<Trade>)
    requires OpenThroughout(trades) && |trades| == 1
    ensures trades[0].Buy?
    ensures After(None, trades) == Some(Position(trades[0].quantity, trades[0].price))
    ensures BuyCount(trades) == 1 && Bought(trades) == trades[0].quantity
    ensures Cost(trades) == trades[0].price as real * trades[0].quantity as real
  {
    assert Held(After(None, trades[..0])) == 0;
  }

  function Average(trades: seq<Trade>): int
    requires OpenThroughout(trades)
  {
    After(None, trades).value.average
  }

  /** The average the same trades give when nothing is rounded. */
  function ExactAverage(trades: seq<Trade>): real
    requires OpenThroughout(trades)
  {
    var earlier, last := trades[..|trades| - 1], trades[|trades| - 1];
    if |trades| == 1 then OpensWithBuy(trades); last.price as real
    else if last.Sell? then ExactAverage(earlier)
    else Mean(ExactAverage(earlier), Held(After(None, earlier)), last.price, last.quantity)
  }

  function BuyCount(trades: seq<Trade>): nat
  {
    if |trades| == 0 then 0
    else BuyCount(trades[..|trades| - 1]) + (if trades[|trades| - 1].Buy? then 1 else 0)
  }

  function Buys(trades: seq<Trade>): set<int>
  {
    set i | 0 <= i < |trades| && trades[i].Buy?
  }

  /** How many of the trades are buys. */
  lemma {:induction false} BuyCountIsSize(trades: seq<Trade>)
    ensures BuyCount(trades) == |Buys(trades)|
  {
    hide Buys;
    if trades == [] {
      NoBuys();
    } else {
      BuyCountIsSize(trades[..|trades| - 1]);
      OneMoreBuy(trades);
    }
  }

  lemma NoBuys()
    ensures Buys([]) == {}
  {
  }

  lemma OneMoreBuy(trades: seq<Trade>)
    requires trades != []
    ensures var n := |trades| - 1;
            |Buys(trades)| == |Buys(trades[..n])| + if trades[n].Buy? then 1 else 0
  {
    var n := |trades| - 1;
    if trades[n].Buy? {
      assert Buys(trades) == Buys(trades[..n]) + {n};
    } else {
      assert Buys(trades) == Buys(trades[..n]);
    }
  }

  /** The unrounded value of everything bought. */
  function Cost(trades: seq<Trade>): real
  {
    if |trades| == 0 then 0.0
    else Cost(trades[..|trades| - 1]) +
         (match trades[|trades| - 1]
          case Buy(price, quantity) => price as real * quantity as real
          case Sell(_) => 0.0)
  }

  predicate PricesWithin(trades: seq<Trade>, low: Cents, high: Cents)
  {
    forall i :: 0 <= i < |trades| && trades[i].Buy? ==> low <= trades[i].price <= high
  }

  /** The stored average never leaves the range of the buy prices since opening. */
  lemma {:induction false} AverageStaysBetweenBuyPrices(trades: seq<Trade>, low: Cents, high: Cents)
    requires OpenThroughout(trades) && PricesWithin(trades, low, high)
    ensures low <= Average(trades) <= high
  {
    if |trades| == 1 {
      OpensWithBuy(trades);
    } else {
      var earlier, last := trades[..|trades| - 1], trades[|trades| - 1];
      AverageStaysBetweenBuyPrices(earlier, low, high);
      if last.Buy? {
        var held := After(None, earlier).value;
        MeanBetween(held.average as real, held.quantity, last.price, last.quantity, low as real, high as real);
        var mean := Mean(held.average as real, held.quantity, last.price, last.quantity);
        RoundCentsMonotone(low as real, mean);
        RoundCentsMonotone(mean, high as real);
        RoundCentsWhole(low);
        RoundCentsWhole(high);
      }
    }
  }

  function Distance(x: real, y: real): real
  {
    if x < y then y - x else x - y
  }

  /** Averaging with a new price brings two averages closer. */
  lemma MeanContracts(x: real, y: real, held: Units, price: Cents, bought: Units)
    ensures Distance(Mean(x, held, price, bought), Mean(y, held, price, bought)) <= Distance(x, y)
  {
    var h, b, p := held as real, bought as real, price as real;
    var w := (held + bought) as real;
    assert w == h + b;
    var mx, my := Mean(x, held, price, bought), Mean(y, held, price, bought);
    assert mx * w == x * h + p * b && my * w == y * h + p * b;
    assert (mx - my) * w == (x - y) * h by {
      assert (mx - my) * w == mx * w - my * w;
      assert (x - y) * h == x * h - y * h;
    }
    Shrink(mx - my, x - y, h, w);
  }

  lemma Shrink(m: real, d: real, h: real, w: real)
    requires 0.0 < h < w && m * w == d * h
    ensures d >= 0.0 ==> 0.0 <= m <= d
    ensures d <= 0.0 ==> d <= m <= 0.0
  {
    assert m == d * h / w;
    if d >= 0.0 {
      assert d * h <= d * w;
    } else {
      assert d * h >= d * w;
    }
    TradingMath.DivideBetween(d * h, w, if d >= 0.0 then 0.0 else d, if d >= 0.0 then d else 0.0);
  }

  /** After k buys the stored average is within (k-1) roundings of the exact weighted average. */
  lemma {:induction false} AverageErrorIsBounded(trades: seq<Trade>)
    requires OpenThroughout(trades)
    ensures BuyCount(trades) >= 1
    ensures Distance(Average(trades) as real, ExactAverage(trades))
         <= (BuyCount(trades) - 1) as real * ROUNDING_ERROR
  {
    var earlier, last := trades[..|trades| - 1], trades[|trades| - 1];
    if |trades| == 1 {
      OpensWithBuy(trades);
    } else {
      AverageErrorIsBounded(earlier);
      if last.Buy? {
        var held := After(None, earlier).value;
        var exact := ExactAverage(earlier);
        MeanContracts(held.average as real, exact, held.quantity, last.price, last.quantity);
        RoundCentsBound(Mean(held.average as real, held.quantity, last.price, last.quantity));
        assert (BuyCount(trades) - 1) as real == (BuyCount(earlier) - 1) as real + 1.0;
      }
    }
  }

  lemma {:induction false} BuysAreHeld(trades: seq<Trade>)
    requires OpenThroughout(trades)
    requires forall i :: 0 <= i < |trades| ==> trades[i].Buy?
    ensures Held(After(None, trades)) == Bought(trades)
  {
    if |trades| == 1 {
      OpensWithBuy(trades);
    } else {
      BuysAreHeld(trades[..|trades| - 1]);
    }
  }

  /** Without sells the exact average times the total quantity is the total cost. */
  lemma {:induction false} ExactAverageOfBuysIsCostPerShare(trades: seq<Trade>)
    requires OpenThroughout(trades)
    requires forall i :: 0 <= i < |trades| ==> trades[i].Buy?
    ensures Bought(trades) > 0
    ensures ExactAverage(trades) * Bought(trades) as real == Cost(trades)
  {
    hide Mean, After, Held;
    if |trades| == 1 {
      OpensWithBuy(trades);
      assert ExactAverage(trades) == trades[0].price as real;
      assert ExactAverage(trades) * Bought(trades) as real == Cost(trades);
    } else {
      var earlier, last := trades[..|trades| - 1], trades[|trades| - 1];
      ExactAverageOfBuysIsCostPerShare(earlier);
      BuysAreHeld(earlier);
      var average, held := ExactAverage(earlier), Bought(earlier);
      MeanTimesShares(average, held, last.price, last.quantity);
      assert Bought(trades) == held + last.quantity;
      assert ExactAverage(trades) * Bought(trades) as real ==
             average * held as real + last.price as real * last.quantity as real;
      assert Cost(trades) == Cost(earlier) + last.price as real * last.quantity as real;
      assert ExactAverage(trades) * Bought(trades) as real == Cost(trades);
    }
  }

  lemma MeanTimesShares(average: real, held: Units, price: Cents, bought: Units)
    ensures Mean(average, held, price, bought) * (held + bought) as real ==
            average * held as real + price as real * bought as real
  {
  }
}
