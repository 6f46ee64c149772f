/** `createOrder` for market orders: the transaction over one account, one position and the valuation. */
module TradingController {

  import opened Sequences
  import opened PartyOrder
  import opened TradingMath
  import opened Sums
  import opened Ledger

  /** The stored valuation of an investment account, in cents. */
  datatype Valuation = Valuation(totalValue: int, totalGainLoss: int)

  /** The price a holding is valued at: its quote, or its average price when the asset type is unsupported. */
  function MarketPrice(quotes: map<string, Cents>, holding: Holding, position: Position): Cents
  {
    if holding.asset in quotes then quotes[holding.asset] else position.average
  }

  function HoldingsOf(positions: map<Holding, Position>, account: string): set<Holding>
  {
    set holding | holding in positions && holding.account == account
  }

  /** Quantity times price of each of the given holdings, in units of 1e-8 cents. */
  function Values(positions: map<Holding, Position>, quotes: map<string, Cents>, holdings: set<Holding>)
    : map<Holding, int>
    requires holdings <= positions.Keys
  {
    map h | h in holdings :: positions[h].quantity * MarketPrice(quotes, h, positions[h])
  }

  function Costs(positions: map<Holding, Position>, holdings: set<Holding>): map<Holding, int>
    requires holdings <= positions.Keys
  {
    map h | h in holdings :: positions[h].quantity * positions[h].average
  }

  ghost function ValuationOf(positions: map<Holding, Position>, quotes: map<string, Cents>, account: string, cash: int)
    : Valuation
  {
    var holdings := HoldingsOf(positions, account);
    var value := Total(Values(positions, quotes, holdings)) as real / UNITS_PER_SHARE;
    var cost := Total(Costs(positions, holdings)) as real / UNITS_PER_SHARE;
    Valuation(RoundCents(cash as real + value), RoundCents(value - cost))
  }

  /** One position less to add up. */
  lemma WithoutOne(positions: map<Holding, Position>, quotes: map<string, Cents>, holdings: set<Holding>, h: Holding)
    requires h in holdings && holdings <= positions.Keys
    ensures Total(Values(positions, quotes, holdings)) ==
            Total(Values(positions, quotes, holdings - {h})) +
            positions[h].quantity * MarketPrice(quotes, h, positions[h])
    ensures Total(Costs(positions, holdings)) ==
            Total(Costs(positions, holdings - {h})) + positions[h].quantity * positions[h].average
  {
    hide Total, MarketPrice;
    TotalRemove(Values(positions, quotes, holdings), h);
    TotalRemove(Costs(positions, holdings), h);
    assert Values(positions, quotes, holdings) - {h} == Values(positions, quotes, holdings - {h});
    assert Costs(positions, holdings) - {h} == Costs(positions, holdings - {h});
  }

  lemma NothingToAdd(positions: map<Holding, Position>, quotes: map<string, Cents>)
    ensures Total(Values(positions, quotes, {})) == 0 && Total(Costs(positions, {})) == 0
  {
    assert Values(positions, quotes, {}) == map[] && Costs(positions, {}) == map[];
  }

  /** Quantity times price of the holdings listed: each at its quote, or at its average price without one. */
  function Worth(positions: map<Holding, Position>, quotes: map<string, Cents>, listed: seq<Holding>): int
    requires forall h :: h in listed ==> h in positions
  {
    if |listed| == 0 then 0
    else Worth(positions, quotes, Front(listed)) +
         positions[Last(listed)].quantity *
         (if Last(listed).asset in quotes then quotes[Last(listed).asset] else positions[Last(listed)].average)
  }

  /** Quantity times average price of the holdings listed. */
  function Paid(positions: map<Holding, Position>, listed: seq<Holding>): int
    requires forall h :: h in listed ==> h in positions
  {
    if |listed| == 0 then 0
    else Paid(positions, Front(listed)) + positions[Last(listed)].quantity * positions[Last(listed)].average
  }

  predicate Distinct(listed: seq<Holding>)
  {
    forall i, j :: 0 <= i < j < |listed| ==> listed[i] != listed[j]
  }

  /** Any holdings can be listed, in some order. */
  lemma {:induction false} SomeList(holdings: set<Holding>) returns (listed: seq<Holding>)
    ensures Distinct(listed) && forall h :: h in holdings <==> h in listed
  {
    if holdings == {} {
      listed := [];
    } else {
      var last :| last in holdings;
      var earlier := SomeList(holdings - {last});
      listed := earlier + [last];
    }
  }

  lemma {:induction false} TotalsOfList(positions: map<Holding, Position>, quotes: map<string, Cents>,
                                        listed: seq<Holding>)
    requires Distinct(listed) && forall h :: h in listed ==> h in positions
    ensures Total(Values(positions, quotes, set h | h in listed)) == Worth(positions, quotes, listed)
    ensures Total(Costs(positions, set h | h in listed)) == Paid(positions, listed)
  {
    hide Total, Values, Costs;
    var holdings := set h | h in listed;
    if |listed| == 0 {
      assert holdings == {};
      NothingToAdd(positions, quotes);
    } else {
      var last := Last(listed);
      assert last in listed;
      assert holdings - {last} == set h | h in Front(listed);
      TotalsOfList(positions, quotes, Front(listed));
      WithoutOne(positions, quotes, holdings, last);
    }
  }

  /** In whatever order the positions of an account are read: its value is cash plus worth, its gain worth less cost. */
  lemma ValuationOfList(positions: map<Holding, Position>, quotes: map<string, Cents>, account: string, cash: int,
                        listed: seq<Holding>)
    requires Distinct(listed) && forall h :: h in listed ==> h in positions
    requires forall h :: h in positions && h.account == account <==> h in listed
    ensures ValuationOf(positions, quotes, account, cash) ==
            Valuation(RoundCents(cash as real + Worth(positions, quotes, listed) as real / 100000000.0),
                      RoundCents((Worth(positions, quotes, listed) - Paid(positions, listed)) as real / 100000000.0))
  {
    hide Total, Values, Costs, Worth, Paid, RoundCents;
    TotalsOfList(positions, quotes, listed);
    assert HoldingsOf(positions, account) == set h | h in listed;
    var worth, paid := Worth(positions, quotes, listed), Paid(positions, listed);
    assert (worth - paid) as real / UNITS_PER_SHARE == worth as real / UNITS_PER_SHARE - paid as real / UNITS_PER_SHARE;
  }

  /** An account without positions is worth its cash. */
  lemma EmptyAccountIsCash(positions: map<Holding, Position>, quotes: map<string, Cents>, account: string, cash: int)
    requires forall h :: h in positions ==> h.account != account
    ensures ValuationOf(positions, quotes, account, cash) == Valuation(cash, 0)
  {
    ValuationOfList(positions, quotes, account, cash, []);
    RoundCentsWhole(cash);
    RoundCentsWhole(0);
  }

  /** An asset as the order looks it up, by its symbol. */
  datatype Asset = Asset(id: string, isTradable: bool, isProposed: bool, isSupported: bool)

  datatype Answer = AssetNotProposed | Answered(outcome: Outcome)

  class Desk {
    var balances: map<Party, int>
    var positions: map<Holding, Position>
    var valuations: map<string, Valuation>

    // Tables that an order never touches.
    const active: set<string>
    const owners: map<string, string>
    const assets: map<string, Asset>
    const ledger: seq<Entry>
    const keys: set<string>

    ghost function Tables(): Db
      reads this
    {
      Db(balances, ledger, keys, active, positions)
    }

    constructor (db: Db, owners: map<string, string>, assets: map<string, Asset>)
      ensures Tables() == db && valuations == map[] && this.owners == owners && this.assets == assets
    {
      this.owners, this.assets := owners, assets;
      balances, positions, valuations := db.balances, db.positions, map[];
      active, ledger, keys := db.active, db.ledger, db.keys;
    }

    method Buy(holding: Holding, quantity: Units, price: Cents)
      modifies this`positions
      ensures positions == PutPosition(old(positions), holding,
                AfterTrade(PositionAt(old(Tables()), holding), TradingMath.Buy(price, quantity)))
    {
      if holding !in positions {
        positions := positions[holding := Position(quantity, price)];
      } else {
        positions := positions[holding := BuyMore(positions[holding], price, quantity)];
      }
    }

    method Sell(holding: Holding, quantity: Units)
      requires quantity <= Held(PositionAt(Tables(), holding))
      modifies this`positions
      ensures positions == PutPosition(old(positions), holding,
                AfterTrade(PositionAt(old(Tables()), holding), TradingMath.Sell(quantity)))
    {
      var remaining := positions[holding].quantity - quantity;
      NegligibleIsZero(remaining);
      if Negligible(remaining) {
        positions := positions - {holding};
      } else {
        positions := positions[holding := positions[holding].(quantity := remaining)];
      }
    }

    /** The loop over the account's positions adds up to the sum over all of them. */
    method RefreshAccountValuation(account: string, quotes: map<string, Cents>)
      requires Party(Investment, account) in balances
      modifies this`valuations
      ensures valuations == old(valuations)[account :=
                ValuationOf(positions, quotes, account, balances[Party(Investment, account)])]
    {
      hide Values, Costs, Total;
      var holdingsValue, costBasis := 0, 0;
      var all := HoldingsOf(positions, account);
      var rest := all;
      while rest != {}
        invariant valuations == old(valuations)
        invariant rest <= all <= positions.Keys
        invariant holdingsValue + Total(Values(positions, quotes, rest)) == Total(Values(positions, quotes, all))
        invariant costBasis + Total(Costs(positions, rest)) == Total(Costs(positions, all))
        decreases rest
      {
        var h :| h in rest;
        WithoutOne(positions, quotes, rest, h);
        holdingsValue := holdingsValue + positions[h].quantity * MarketPrice(quotes, h, positions[h]);
        costBasis := costBasis + positions[h].quantity * positions[h].average;
        rest := rest - {h};
      }
      NothingToAdd(positions, quotes);
      var value, cost := holdingsValue as real / UNITS_PER_SHARE, costBasis as real / UNITS_PER_SHARE;
      var cash := balances[Party(Investment, account)];
      valuations := valuations[account := Valuation(RoundCents(cash as real + value), RoundCents(value - cost))];
    }

    /**
     * A market order for an asset that is proposed, tradable and supported, on an account of the user, does
     * to the tables what its serial meaning says and then values the account; any other changes nothing.
     */
    method CreateOrder(user: string, account: string, symbol: string, side: Side, quantity: Units, price: Cents,
                       quotes: map<string, Cents>)
      returns (answer: Answer)
      modifies this
      ensures answer.AssetNotProposed? <==>
                symbol !in assets || !assets[symbol].isTradable || !assets[symbol].isProposed ||
                !assets[symbol].isSupported
      ensures answer.AssetNotProposed? ==> Tables() == old(Tables()) && valuations == old(valuations)
      ensures answer.Answered? && (account !in owners || owners[account] != user) ==>
                answer.outcome.AccountNotFound? && Tables() == old(Tables()) && valuations == old(valuations)
      ensures answer.Answered? && account in owners && owners[account] == user ==>
                (Tables(), answer.outcome) ==
                Apply(old(Tables()), Order(account, assets[symbol].id, side, quantity, price))
      ensures answer.Answered? && account in owners && owners[account] == user ==>
                var row, holding := Party(Investment, account), Holding(account, assets[symbol].id);
                var held := if holding in old(positions) then old(positions)[holding].quantity else 0;
                var open, amount := row in old(balances) && account in active, ExecutionAmount(price, quantity);
                (answer.outcome == AccountNotFound <==> row !in old(balances)) &&
                (answer.outcome == AccountInactive <==> row in old(balances) && account !in active) &&
                (answer.outcome == InsufficientCash <==> open && side.BuySide? && old(balances)[row] < amount) &&
                (answer.outcome == InsufficientQuantity <==> open && side.SellSide? && held < quantity) &&
                (answer.outcome.Executed? <==>
                   open && if side.BuySide? then old(balances)[row] >= amount else held >= quantity) &&
                (answer.outcome.Executed? ==>
                   answer.outcome ==
                     Executed(amount, old(balances)[row] + (if side.BuySide? then -amount else amount)) &&
                   balances == old(balances)[row := answer.outcome.cash]) &&
                (!answer.outcome.Executed? ==> Tables() == old(Tables()))
      ensures answer.Answered? ==>
                valuations == if answer.outcome.Executed?
                              then old(valuations)[account :=
                                     ValuationOf(positions, quotes, account, answer.outcome.cash)]
                              else old(valuations)
    {
      hide RoundCents, ExecutionAmount, AfterTrade, PutPosition, ValuationOf, ApplyTransfer;
      if symbol in assets {
        OrderOutcomes(Tables(), account, assets[symbol].id, side, quantity, price);
        ExecutedOrder(Tables(), account, assets[symbol].id, side, quantity, price);
      }
      if symbol !in assets || !assets[symbol].isTradable || !assets[symbol].isProposed {
        return AssetNotProposed;
      }
      if !assets[symbol].isSupported {
        return AssetNotProposed;
      }
      var row, holding := Party(Investment, account), Holding(account, assets[symbol].id);
      if row !in balances || account !in owners || owners[account] != user {
        return Answered(AccountNotFound);
      }
      if account !in active {
        return Answered(AccountInactive);
      }
      var held := if holding in positions then positions[holding].quantity else 0;
      var amount := ExecutionAmount(price, quantity);
      if side.BuySide? && balances[row] < amount {
        return Answered(InsufficientCash);
      }
      if side.SellSide? && held < quantity {
        return Answered(InsufficientQuantity);
      }
      if side.BuySide? {
        balances := balances[row := RoundCents((balances[row] - amount) as real)];
        Buy(holding, quantity, price);
      } else {
        balances := balances[row := RoundCents((balances[row] + amount) as real)];
        Sell(holding, quantity);
      }
      RefreshAccountValuation(account, quotes);
      answer := Answered(Executed(amount, balances[row]));
    }
  }
}
