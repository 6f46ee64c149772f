/**
 * The tables behind transfers and market orders, and the meaning of one command run alone.
 * Everything here is about one command at a time; TransferSteps and TransferConcurrency show that interleaved
 * commands amount to such a run.
 */
module Ledger {

  import opened Wrappers
  import opened PartyOrder
  import opened TradingMath
  import opened Sequences
  import opened Sums
  import opened Positions

  datatype EntryKind = CreditRow | DebitRow | TransferRow | PaymentRow | WithdrawalRow | DepositRow

  /** A row of bank_transactions or of investment_transactions. */
  datatype Entry = Entry(account: Party, kind: EntryKind, description: string, amount: int, balanceAfter: int)

  datatype Direction = In | Out

  datatype Holding = Holding(account: string, asset: string)

  /** Balances in cents, one per account row of either table. */
  datatype Db = Db(
    balances: map<Party, int>,
    ledger: seq<Entry>,
    keys: set<string>,
    active: set<string>,
    positions: map<Holding, Position>)

  datatype Side = BuySide | SellSide

  datatype Command =
    | Transfer(source: Party, destination: Party, amount: int, description: string,
               idempotencyKey: Option<string>)
    | Order(account: string, asset: string, side: Side, quantity: Units, price: Cents)

  datatype Outcome =
    | Completed(sourceBalance: int, destinationBalance: int)
    | InsufficientFunds
    | Duplicate
    | DestinationNotFound
    | Executed(amount: int, cash: int)
    | AccountNotFound
    | AccountInactive
    | InsufficientCash
    | InsufficientQuantity

  /** An empty key is no key. */
  predicate HasKey(command: Command)
  {
    command.Transfer? && command.idempotencyKey.Some? && command.idempotencyKey.value != ""
  }

  function KeyOf(command: Command): string
    requires HasKey(command)
  {
    command.idempotencyKey.value
  }

  /** The row `writeLedger` inserts: only bank debits are stored negatively. */
  function NewEntry(party: Party, direction: Direction, amount: int, balanceAfter: int, description: string): Entry
  {
    match (party.kind, direction)
    case (Bank, Out) => Entry(party, DebitRow, description, -amount, balanceAfter)
    case (Bank, In) => Entry(party, TransferRow, description, amount, balanceAfter)
    case (Investment, Out) => Entry(party, WithdrawalRow, description, amount, balanceAfter)
    case (Investment, In) => Entry(party, DepositRow, description, amount, balanceAfter)
  }

  function CashRow(order: Command): Party
    requires order.Order?
  {
    Party(Investment, order.account)
  }

  function HoldingOf(order: Command): Holding
    requires order.Order?
  {
    Holding(order.account, order.asset)
  }

  function TradeOf(order: Command): Trade
    requires order.Order?
  {
    match order.side
    case BuySide => Buy(order.price, order.quantity)
    case SellSide => Sell(order.quantity)
  }

  function PositionAt(db: Db, holding: Holding): Option<Position>
  {
    if holding in db.positions then Some(db.positions[holding]) else None
  }

  function PutPosition(positions: map<Holding, Position>, holding: Holding, position: Option<Position>)
    : map<Holding, Position>
  {
    if position.Some? then positions[holding := position.value] else positions - {holding}
  }

  function ApplyTransfer(db: Db, command: Command): (Db, Outcome)
    requires command.Transfer?
  {
    var Transfer(source, destination, amount, description, _) := command;
    if HasKey(command) && KeyOf(command) in db.keys then (db, Duplicate)
    else if source !in db.balances || db.balances[source] < amount then (db, InsufficientFunds)
    else if destination !in db.balances then (db, DestinationNotFound)
    else
      var left := db.balances[source] - amount;
      var debited := db.balances[source := left];
      var received := debited[destination] + amount;
      (db.(balances := debited[destination := received],
           ledger := db.ledger + [NewEntry(source, Out, amount, left, description),
                                  NewEntry(destination, In, amount, received, description)],
           keys := if HasKey(command) then db.keys + {KeyOf(command)} else db.keys),
       Completed(left, received))
  }

  /** The outcome of `validateMarketExecution` and, when it passes, the new cash balance. */
  function MarketExecution(side: Side, quantity: Units, price: Cents, cash: int, held: nat): Outcome
  {
    var amount := ExecutionAmount(price, quantity);
    if side.BuySide? && cash < amount then InsufficientCash
    else if side.SellSide? && held < quantity then InsufficientQuantity
    else
      var change := if side.BuySide? then -amount else amount;
      Executed(amount, RoundCents((cash + change) as real))
  }

  function ApplyOrder(db: Db, command: Command): (Db, Outcome)
    requires command.Order?
  {
    var row := CashRow(command);
    var position := PositionAt(db, HoldingOf(command));
    if row !in db.balances then (db, AccountNotFound)
    else if command.account !in db.active then (db, AccountInactive)
    else
      var outcome := MarketExecution(command.side, command.quantity, command.price,
                                     db.balances[row], Held(position));
      if !outcome.Executed? then (db, outcome)
      else
        (db.(balances := db.balances[row := outcome.cash],
             positions := PutPosition(db.positions, HoldingOf(command), AfterTrade(position, TradeOf(command)))),
         outcome)
  }

  /** One command run alone, from start to commit or rollback. */
  function Apply(db: Db, command: Command): (Db, Outcome)
  {
    if command.Transfer? then ApplyTransfer(db, command) else ApplyOrder(db, command)
  }

  predicate Succeeded(outcome: Outcome)
  {
    outcome.Completed? || outcome.Executed?
  }

  datatype Event = Event(command: Command, outcome: Outcome)

  /** The tables after the commands of a history, one after the other. */
  function Replay(start: Db, history: seq<Event>): Db
  {
    if |history| == 0 then start
    else Apply(Replay(start, Front(history)), Last(history).command).0
  }

  /** Every recorded outcome is the one its command has at that point of the serial run. */
  predicate Faithful(start: Db, history: seq<Event>)
  {
    |history| == 0 ||
    (Faithful(start, Front(history)) &&
     Last(history).outcome == Apply(Replay(start, Front(history)), Last(history).command).1)
  }

  lemma ReplayAppend(start: Db, history: seq<Event>, event: Event)
    ensures Replay(start, history + [event]) == Apply(Replay(start, history), event.command).0
    ensures Faithful(start, history + [event]) <==>
            Faithful(start, history) && event.outcome == Apply(Replay(start, history), event.command).1
  {
    assert Front(history + [event]) == history;
  }

  lemma {:induction false} FaithfulPrefix(start: Db, history: seq<Event>, n: nat)
    requires Faithful(start, history) && n <= |history|
    ensures Faithful(start, history[..n])
    ensures n < |history| ==>
              history[n].outcome == Apply(Replay(start, history[..n]), history[n].command).1
    decreases |history|
  {
    if n == |history| {
      assert history[..n] == history;
    } else if n == |history| - 1 {
      assert Front(history) == history[..n];
    } else {
      FaithfulPrefix(start, Front(history), n);
      assert Front(history)[..n] == history[..n];
    }
  }

  // --- One command -------------------------------------------------------------------------

  /** A transfer completes exactly when its key is free, the source is covered and the destination exists. */
  lemma TransferCompletesIff(db: Db, command: Command)
    requires command.Transfer?
    ensures Apply(db, command).1.Completed? <==>
            (HasKey(command) ==> KeyOf(command) !in db.keys) &&
            command.source in db.balances && command.destination in db.balances &&
            db.balances[command.source] >= command.amount
  {
  }

  /** Why a transfer does not complete: each answer has its own condition. */
  lemma TransferRefusals(db: Db, source: Party, destination: Party, amount: int, description: string,
                         key: Option<string>)
    ensures var outcome := Apply(db, Transfer(source, destination, amount, description, key)).1;
            var taken := key.Some? && key.value != "" && key.value in db.keys;
            var covered := source in db.balances && db.balances[source] >= amount;
            (outcome == Duplicate <==> taken) &&
            (outcome == InsufficientFunds <==> !taken && !covered) &&
            (outcome == DestinationNotFound <==> !taken && covered && destination !in db.balances) &&
            (outcome.Completed? <==> !taken && covered && destination in db.balances)
  {
  }

  /** What a completed transfer does to every table, and the two balances it returns. */
  lemma CompletedTransfer(db: Db, source: Party, destination: Party, amount: int, description: string,
                          key: Option<string>)
    ensures var (after, outcome) := Apply(db, Transfer(source, destination, amount, description, key));
            outcome.Completed? ==>
              source in db.balances && destination in db.balances &&
              outcome.sourceBalance == db.balances[source] - amount &&
              outcome.destinationBalance ==
                (if source == destination then db.balances[source] else db.balances[destination] + amount) &&
              after.balances ==
                (if source == destination then db.balances
                 else db.balances[source := db.balances[source] - amount]
                                 [destination := db.balances[destination] + amount]) &&
              after.ledger == db.ledger +
                [if source.kind.Bank?
                 then Entry(source, DebitRow, description, -amount, db.balances[source] - amount)
                 else Entry(source, WithdrawalRow, description, amount, db.balances[source] - amount),
                 if destination.kind.Bank?
                 then Entry(destination, TransferRow, description, amount, outcome.destinationBalance)
                 else Entry(destination, DepositRow, description, amount, outcome.destinationBalance)] &&
              after.keys == (if key.Some? && key.value != "" then db.keys + {key.value} else db.keys) &&
              after.active == db.active && after.positions == db.positions
  {
    var (after, outcome) := Apply(db, Transfer(source, destination, amount, description, key));
    if outcome.Completed? && source == destination {
      assert after.balances == db.balances;
    }
  }

  /** A market order executes exactly on an active account that covers it; each refusal has its own condition. */
  lemma OrderOutcomes(db: Db, account: string, asset: string, side: Side, quantity: Units, price: Cents)
    ensures var outcome := Apply(db, Order(account, asset, side, quantity, price)).1;
            var row, holding := Party(Investment, account), Holding(account, asset);
            var held := if holding in db.positions then db.positions[holding].quantity else 0;
            var there, amount := row in db.balances, ExecutionAmount(price, quantity);
            (outcome == AccountNotFound <==> !there) &&
            (outcome == AccountInactive <==> there && account !in db.active) &&
            (outcome == InsufficientCash <==>
               there && account in db.active && side.BuySide? && db.balances[row] < amount) &&
            (outcome == InsufficientQuantity <==>
               there && account in db.active && side.SellSide? && held < quantity) &&
            (outcome.Executed? <==>
               there && account in db.active && if side.BuySide? then db.balances[row] >= amount else held >= quantity)
  {
  }

  /** What an executed order does to every table: cash, one position, and nothing else. */
  lemma ExecutedOrder(db: Db, account: string, asset: string, side: Side, quantity: Units, price: Cents)
    ensures var (after, outcome) := Apply(db, Order(account, asset, side, quantity, price));
            var row, holding := Party(Investment, account), Holding(account, asset);
            outcome.Executed? ==>
              row in db.balances && outcome.amount == ExecutionAmount(price, quantity) &&
              outcome.cash == db.balances[row] + (if side.BuySide? then -outcome.amount else outcome.amount) &&
              after.balances == db.balances[row := outcome.cash] &&
              after.ledger == db.ledger && after.keys == db.keys && after.active == db.active &&
              after.positions - {holding} == db.positions - {holding} &&
              (side.BuySide? && holding !in db.positions ==>
                 holding in after.positions && after.positions[holding] == Position(quantity, price)) &&
              (side.BuySide? && holding in db.positions ==>
                 holding in after.positions &&
                 after.positions[holding].quantity == db.positions[holding].quantity + quantity &&
                 IsMean(after.positions[holding].average, db.positions[holding], price, quantity)) &&
              (side.SellSide? ==>
                 holding in db.positions && quantity <= db.positions[holding].quantity &&
                 (holding in after.positions <==> quantity < db.positions[holding].quantity) &&
                 (holding in after.positions ==>
                    after.positions[holding].quantity == db.positions[holding].quantity - quantity &&
                    after.positions[holding].average == db.positions[holding].average))
  {
    var (after, outcome) := Apply(db, Order(account, asset, side, quantity, price));
    var row, holding := Party(Investment, account), Holding(account, asset);
    if outcome.Executed? {
      RoundCentsWhole(db.balances[row] + (if side.BuySide? then -outcome.amount else outcome.amount));
      if holding in db.positions {
        hide RoundCents, Negligible, Mean;
        if side.BuySide? {
          AverageIsMean(db.positions[holding], price, quantity);
        } else {
          NegligibleIsZero(db.positions[holding].quantity - quantity);
        }
      }
    }
  }

  /** A command that does not succeed leaves every table as it was. */
  lemma FailureLeavesNoTrace(db: Db, command: Command)
    requires !Succeeded(Apply(db, command).1)
    ensures Apply(db, command).0 == db
  {
  }

  /** What a command adds to the total of all balances. */
  function Inflow(event: Event): int
  {
    if event.outcome.Executed? && event.command.Order? then
      (if event.command.side.BuySide? then -event.outcome.amount else event.outcome.amount)
    else 0
  }

  /** A transfer moves money without making or losing any; an order pays its amount and no more. */
  lemma CommandConserves(db: Db, command: Command)
    ensures Total(Apply(db, command).0.balances)
         == Total(db.balances) + Inflow(Event(command, Apply(db, command).1))
    ensures Apply(db, command).0.balances.Keys == db.balances.Keys
    ensures Apply(db, command).0.active == db.active
  {
    var (after, outcome) := Apply(db, command);
    if outcome.Completed? {
      var debited := db.balances[command.source := outcome.sourceBalance];
      TotalUpdate(db.balances, command.source, outcome.sourceBalance);
      TotalUpdate(debited, command.destination, outcome.destinationBalance);
    } else if outcome.Executed? {
      TotalUpdate(db.balances, CashRow(command), outcome.cash);
      var change := if command.side.BuySide? then -outcome.amount else outcome.amount;
      RoundCentsWhole(db.balances[CashRow(command)] + change);
    }
  }

  predicate NonNegative(db: Db)
  {
    forall p :: p in db.balances ==> db.balances[p] >= 0
  }

  predicate PositiveAmount(command: Command)
  {
    command.Transfer? ==> command.amount > 0
  }

  lemma CommandKeepsNonNegative(db: Db, command: Command)
    requires NonNegative(db) && PositiveAmount(command)
    ensures NonNegative(Apply(db, command).0)
  {
    if command.Order? && Apply(db, command).1.Executed? {
      ExecutionAmountNonNegative(command.price, command.quantity);
      RoundCentsWhole(db.balances[CashRow(command)] - Apply(db, command).1.amount);
      RoundCentsWhole(db.balances[CashRow(command)] + Apply(db, command).1.amount);
    }
  }

  // --- Runs --------------------------------------------------------------------------------

  function Spent(history: seq<Event>): int
  {
    if |history| == 0 then 0
    else Spent(Front(history)) +
         (if Last(history).outcome.Executed? && Last(history).command.Order? && Last(history).command.side.BuySide?
          then Last(history).outcome.amount else 0)
  }

  function Earned(history: seq<Event>): int
  {
    if |history| == 0 then 0
    else Earned(Front(history)) +
         (if Last(history).outcome.Executed? && Last(history).command.Order? && Last(history).command.side.SellSide?
          then Last(history).outcome.amount else 0)
  }

  /** Bank balances plus investment cash: the start value, less executed buys, plus executed sells. */
  lemma {:induction false} MoneyIsConserved(start: Db, history: seq<Event>)
    requires Faithful(start, history)
    ensures Total(Replay(start, history).balances) == Total(start.balances) - Spent(history) + Earned(history)
    ensures Replay(start, history).balances.Keys == start.balances.Keys
    ensures Replay(start, history).active == start.active
  {
    if |history| > 0 {
      MoneyIsConserved(start, Front(history));
      CommandConserves(Replay(start, Front(history)), Last(history).command);
    }
  }

  lemma {:induction false} NoBalanceGoesNegative(start: Db, history: seq<Event>)
    requires NonNegative(start)
    requires forall i :: 0 <= i < |history| ==> PositiveAmount(history[i].command)
    ensures NonNegative(Replay(start, history))
  {
    if |history| > 0 {
      NoBalanceGoesNegative(start, Front(history));
      assert PositiveAmount(history[|history| - 1].command);
      CommandKeepsNonNegative(Replay(start, Front(history)), Last(history).command);
    }
  }

  predicate TradesIn(event: Event, holding: Holding)
  {
    event.outcome.Executed? && event.command.Order? && HoldingOf(event.command) == holding
  }

  /** The trades of one account in one asset, in order. */
  function TradesOf(history: seq<Event>, holding: Holding): seq<Trade>
  {
    if |history| == 0 then []
    else TradesOf(Front(history), holding) +
         (if TradesIn(Last(history), holding) then [TradeOf(Last(history).command)] else [])
  }

  lemma CoveredAppend(start: Option<Position>, trades: seq<Trade>, trade: Trade)
    requires Covered(start, trades)
    requires trade.Sell? ==> trade.quantity <= Held(After(start, trades))
    ensures Covered(start, trades + [trade])
    ensures After(start, trades + [trade]) == AfterTrade(After(start, trades), trade)
  {
    assert (trades + [trade])[..|trades + [trade]| - 1] == trades;
  }

  /** A command moves a position only by executing a trade in it, which the position covers. */
  lemma CommandMovesPosition(db: Db, command: Command, holding: Holding)
    ensures var (after, outcome) := Apply(db, command);
            if TradesIn(Event(command, outcome), holding) then
              (TradeOf(command).Sell? ==> TradeOf(command).quantity <= Held(PositionAt(db, holding))) &&
              PositionAt(after, holding) == AfterTrade(PositionAt(db, holding), TradeOf(command))
            else PositionAt(after, holding) == PositionAt(db, holding)
  {
  }

  /** Each position row is the fold of its own executed trades. */
  lemma {:induction false} PositionsFollowTrades(start: Db, history: seq<Event>, holding: Holding)
    requires Faithful(start, history)
    ensures Covered(PositionAt(start, holding), TradesOf(history, holding))
    ensures PositionAt(Replay(start, history), holding)
         == After(PositionAt(start, holding), TradesOf(history, holding))
  {
    if |history| > 0 {
      var earlier, last := Front(history), Last(history);
      PositionsFollowTrades(start, earlier, holding);
      CommandMovesPosition(Replay(start, earlier), last.command, holding);
      if TradesIn(last, holding) {
        CoveredAppend(PositionAt(start, holding), TradesOf(earlier, holding), TradeOf(last.command));
      } else {
        assert TradesOf(history, holding) == TradesOf(earlier, holding);
      }
    }
  }

  /** Each held quantity is exactly what was bought minus what was sold. */
  lemma HoldingsAreBuysMinusSells(start: Db, history: seq<Event>, holding: Holding)
    requires Faithful(start, history)
    ensures Held(PositionAt(Replay(start, history), holding))
         == Held(PositionAt(start, holding)) + Bought(TradesOf(history, holding)) - Sold(TradesOf(history, holding))
  {
    PositionsFollowTrades(start, history, holding);
    HeldIsBoughtMinusSold(PositionAt(start, holding), TradesOf(history, holding));
  }

  // --- Idempotency keys --------------------------------------------------------------------

  predicate CompletedWith(event: Event, key: string)
  {
    event.outcome.Completed? && HasKey(event.command) && KeyOf(event.command) == key
  }

  /** A key is taken exactly when it was at the start or a transfer carrying it has completed. */
  lemma {:induction false} KeyTakenIff(start: Db, history: seq<Event>, key: string)
    requires Faithful(start, history)
    ensures key in Replay(start, history).keys <==>
            key in start.keys || exists i :: 0 <= i < |history| && CompletedWith(history[i], key)
  {
    if |history| > 0 {
      KeyTakenIff(start, Front(history), key);
      if CompletedWith(Last(history), key) {
        assert CompletedWith(history[|history| - 1], key);
      }
      if i :| 0 <= i < |history| - 1 && CompletedWith(history[i], key) {
        assert CompletedWith(Front(history)[i], key);
      }
    }
  }

  /** Once a keyed transfer has completed, each repeat is a duplicate and changes nothing. */
  lemma RepeatIsDuplicate(start: Db, history: seq<Event>, key: string, first: nat, repeat: nat)
    requires Faithful(start, history) && first < repeat < |history|
    requires CompletedWith(history[first], key)
    requires HasKey(history[repeat].command) && KeyOf(history[repeat].command) == key
    ensures history[repeat].outcome == Duplicate
    ensures Replay(start, history[..repeat + 1]) == Replay(start, history[..repeat])
  {
    FaithfulPrefix(start, history, repeat);
    KeyTakenIff(start, history[..repeat], key);
    assert CompletedWith(history[..repeat][first], key);
    assert Front(history[..repeat + 1]) == history[..repeat];
  }

  /** At most one transfer per key completes, and none for a key taken at the start. */
  lemma AtMostOneCompletes(start: Db, history: seq<Event>, key: string, i: nat, j: nat)
    requires Faithful(start, history) && i < |history| && j < |history|
    requires CompletedWith(history[i], key) && CompletedWith(history[j], key)
    ensures i == j
    ensures key !in start.keys
  {
    if i < j {
      RepeatIsDuplicate(start, history, key, i, j);
    } else if j < i {
      RepeatIsDuplicate(start, history, key, j, i);
    }
    FaithfulPrefix(start, history, i);
    KeyTakenIff(start, history[..i], key);
  }

  /**
   * A key whose transfers have all failed is free: the next transfer with it completes exactly when
   * its accounts exist and the source is covered.
   */
  lemma FailedKeyMayBeRetried(start: Db, history: seq<Event>, retry: Command)
    requires Faithful(start, history) && HasKey(retry) && KeyOf(retry) !in start.keys
    requires forall i :: 0 <= i < |history| ==> !CompletedWith(history[i], KeyOf(retry))
    ensures var now := Replay(start, history).balances;
            Apply(Replay(start, history), retry).1.Completed? <==>
            retry.source in now && retry.destination in now && now[retry.source] >= retry.amount
  {
    KeyTakenIff(start, history, KeyOf(retry));
  }

  // --- Only the committed commands matter --------------------------------------------------

  function Committed(history: seq<Event>): seq<Event>
  {
    if |history| == 0 then []
    else Committed(Front(history)) + (if Succeeded(Last(history).outcome) then [Last(history)] else [])
  }

  /** Leaving out the commands that failed changes neither the tables nor any other outcome. */
  lemma {:induction false} FailuresMayBeLeftOut(start: Db, history: seq<Event>)
    requires Faithful(start, history)
    ensures Replay(start, Committed(history)) == Replay(start, history)
    ensures Faithful(start, Committed(history))
  {
    if |history| > 0 {
      FailuresMayBeLeftOut(start, Front(history));
      var last := Last(history);
      if Succeeded(last.outcome) {
        ReplayAppend(start, Committed(Front(history)), last);
      } else {
        FailureLeavesNoTrace(Replay(start, Front(history)), last.command);
        assert Committed(history) == Committed(Front(history));
      }
    }
  }

  // --- The ledger replays to the balances --------------------------------------------------

  function RowsOf(rows: seq<Entry>, account: Party): seq<Entry>
  {
    if |rows| == 0 then []
    else RowsOf(Front(rows), account) + (if Last(rows).account == account then [Last(rows)] else [])
  }

  function SumAmounts(rows: seq<Entry>): int
  {
    if |rows| == 0 then 0 else SumAmounts(Front(rows)) + Last(rows).amount
  }

  /** Every row's balance is the start balance plus the signed sum of the rows up to it. */
  predicate RunningBalances(start: int, rows: seq<Entry>)
  {
    forall i :: 0 <= i < |rows| ==> rows[i].balanceAfter == start + SumAmounts(rows[..i + 1])
  }

  predicate BankSigns(rows: seq<Entry>)
  {
    forall i :: 0 <= i < |rows| ==>
      (rows[i].kind == DebitRow && rows[i].amount <= 0) || (rows[i].kind == TransferRow && rows[i].amount >= 0)
  }

  lemma RunningAppend(start: int, rows: seq<Entry>, row: Entry)
    requires RunningBalances(start, rows)
    requires row.balanceAfter == start + SumAmounts(rows) + row.amount
    ensures RunningBalances(start, rows + [row])
    ensures SumAmounts(rows + [row]) == SumAmounts(rows) + row.amount
  {
    var all := rows + [row];
    assert Front(all) == rows;
    forall i | 0 <= i < |all| ensures all[i].balanceAfter == start + SumAmounts(all[..i + 1]) {
      if i < |rows| {
        assert all[..i + 1] == rows[..i + 1];
      } else {
        assert all[..i + 1] == all;
      }
    }
  }

  lemma RowsAppend(rows: seq<Entry>, a: Entry, b: Entry, account: Party)
    ensures RowsOf(rows + [a, b], account)
         == RowsOf(rows, account) + (if a.account == account then [a] else [])
                                  + (if b.account == account then [b] else [])
  {
    assert Front(rows + [a, b]) == rows + [a];
    assert Front(rows + [a]) == rows;
  }

  /** An account's rows in `db` that were not there at the start. */
  function AddedRows(start: Db, db: Db, account: Party): seq<Entry>
    requires start.ledger <= db.ledger
  {
    RowsOf(db.ledger[|start.ledger|..], account)
  }

  /** The rows added to a bank account carry running balances that end at its balance in `db`. */
  predicate LedgerReplaysTo(start: Db, db: Db, account: Party)
  {
    start.ledger <= db.ledger && account in start.balances && account in db.balances &&
    RunningBalances(start.balances[account], AddedRows(start, db, account)) &&
    BankSigns(AddedRows(start, db, account)) &&
    db.balances[account] == start.balances[account] + SumAmounts(AddedRows(start, db, account))
  }

  /** The ledger rows of a bank account account for its balance, after any history. */
  lemma {:induction false} BankLedgerReplaysToBalance(start: Db, history: seq<Event>, id: string)
    requires Party(Bank, id) in start.balances
    requires Faithful(start, history)
    requires forall i :: 0 <= i < |history| ==> PositiveAmount(history[i].command)
    ensures LedgerReplaysTo(start, Replay(start, history), Party(Bank, id))
  {
    if |history| > 0 {
      BankLedgerReplaysToBalance(start, Front(history), id);
      assert PositiveAmount(history[|history| - 1].command);
      CommandKeepsLedger(start, Replay(start, Front(history)), Last(history).command, Party(Bank, id));
    }
  }

  lemma CommandKeepsLedger(start: Db, before: Db, command: Command, account: Party)
    requires account.kind == Bank && LedgerReplaysTo(start, before, account) && PositiveAmount(command)
    ensures LedgerReplaysTo(start, Apply(before, command).0, account)
  {
    var (after, outcome) := Apply(before, command);
    if outcome.Completed? {
      hide LedgerReplaysTo;
      var debit := NewEntry(command.source, Out, command.amount, outcome.sourceBalance, command.description);
      var credit := NewEntry(command.destination, In, command.amount, outcome.destinationBalance, command.description);
      var middle := if command.source == account then outcome.sourceBalance else before.balances[account];
      TwoRowsFit(start, before, after, account, debit, credit, middle);
    }
  }

  /** Two rows appended to the ledger, each continuing its own account's running balance. */
  lemma TwoRowsFit(start: Db, before: Db, after: Db, account: Party, a: Entry, b: Entry, middle: int)
    requires LedgerReplaysTo(start, before, account) && account in after.balances
    requires after.ledger == before.ledger + [a, b]
    requires if a.account == account
             then BankSigns([a]) && a.balanceAfter == before.balances[account] + a.amount && middle == a.balanceAfter
             else middle == before.balances[account]
    requires if b.account == account
             then BankSigns([b]) && b.balanceAfter == middle + b.amount && after.balances[account] == b.balanceAfter
             else after.balances[account] == middle
    ensures LedgerReplaysTo(start, after, account)
  {
    var added := before.ledger[|start.ledger|..];
    assert after.ledger[|start.ledger|..] == added + [a, b];
    RowsAppend(added, a, b, account);
    var opening := start.balances[account];
    var once := MaybeAppend(opening, RowsOf(added, account), a, account, before.balances[account]);
    var twice := MaybeAppend(opening, once, b, account, middle);
  }

  /** A row is added only to its own account's rows. */
  lemma MaybeAppend(start: int, rows: seq<Entry>, row: Entry, account: Party, balance: int)
    returns (longer: seq<Entry>)
    requires RunningBalances(start, rows) && BankSigns(rows) && balance == start + SumAmounts(rows)
    requires row.account == account ==> BankSigns([row]) && row.balanceAfter == balance + row.amount
    ensures longer == rows + (if row.account == account then [row] else [])
    ensures RunningBalances(start, longer) && BankSigns(longer)
    ensures start + SumAmounts(longer) == (if row.account == account then row.balanceAfter else balance)
  {
    longer := rows + (if row.account == account then [row] else []);
    if row.account == account {
      RunningAppend(start, rows, row);
      assert [row][0] == row;
    } else {
      assert longer == rows;
    }
  }

  // --- The rows of an investment account ---------------------------------------------------

  /** What a row of an investment account adds to its cash: the sign is in the kind of row. */
  function CashChange(row: Entry): int
  {
    if row.kind.WithdrawalRow? then -row.amount else row.amount
  }

  function CashChanges(rows: seq<Entry>): int
  {
    if |rows| == 0 then 0 else CashChanges(Front(rows)) + CashChange(Last(rows))
  }

  predicate CashSigns(rows: seq<Entry>)
  {
    forall i :: 0 <= i < |rows| ==> (rows[i].kind == WithdrawalRow || rows[i].kind == DepositRow) && rows[i].amount >= 0
  }

  predicate RunningCash(start: int, rows: seq<Entry>)
  {
    forall i :: 0 <= i < |rows| ==> rows[i].balanceAfter == start + CashChanges(rows[..i + 1])
  }

  predicate OrderedOn(event: Event, id: string)
  {
    event.outcome.Executed? && event.command.Order? && event.command.account == id
  }

  /** What the executed orders of one account have added to its cash; orders write no ledger row. */
  function OrderFlow(history: seq<Event>, id: string): int
  {
    if |history| == 0 then 0
    else OrderFlow(Front(history), id) + (if OrderedOn(Last(history), id) then Inflow(Last(history)) else 0)
  }

  /** Deposits less withdrawals, and what its orders moved, account for an account's cash. */
  predicate CashIsExplained(start: Db, db: Db, id: string, orderFlow: int)
  {
    var account := Party(Investment, id);
    start.ledger <= db.ledger && account in start.balances && account in db.balances &&
    CashSigns(AddedRows(start, db, account)) &&
    db.balances[account] == start.balances[account] + CashChanges(AddedRows(start, db, account)) + orderFlow
  }

  /** The rows added to an investment account's ledger carry running balances. */
  predicate CashRuns(start: Db, db: Db, id: string)
  {
    var account := Party(Investment, id);
    start.ledger <= db.ledger && account in start.balances &&
    RunningCash(start.balances[account], AddedRows(start, db, account))
  }

  /** The ledger rows and the orders of an investment account account for its cash, after any history. */
  lemma {:induction false} CashLedgerExplainsBalance(start: Db, history: seq<Event>, id: string)
    requires Party(Investment, id) in start.balances
    requires Faithful(start, history)
    requires forall i :: 0 <= i < |history| ==> PositiveAmount(history[i].command)
    ensures CashIsExplained(start, Replay(start, history), id, OrderFlow(history, id))
    ensures (forall i :: 0 <= i < |history| ==> !OrderedOn(history[i], id)) ==>
              OrderFlow(history, id) == 0 && CashRuns(start, Replay(start, history), id)
  {
    if |history| > 0 {
      CashLedgerExplainsBalance(start, Front(history), id);
      assert PositiveAmount(history[|history| - 1].command);
      CommandKeepsCash(start, Replay(start, Front(history)), Last(history), id, OrderFlow(Front(history), id));
    }
  }

  /** One command moves the cash and the rows of an investment account together, but for what an order moves. */
  lemma CommandKeepsCash(start: Db, before: Db, event: Event, id: string, flow: int)
    requires CashIsExplained(start, before, id, flow) && PositiveAmount(event.command)
    requires event.outcome == Apply(before, event.command).1
    ensures var after := Apply(before, event.command).0;
            CashIsExplained(start, after, id, flow + if OrderedOn(event, id) then Inflow(event) else 0) &&
            (flow == 0 && !OrderedOn(event, id) && CashRuns(start, before, id) ==> CashRuns(start, after, id))
  {
    hide RunningCash, CashChanges, RowsOf, RoundCents, ExecutionAmount;
    var (after, outcome) := Apply(before, event.command);
    var account := Party(Investment, id);
    if outcome.Completed? {
      var Transfer(source, destination, amount, description, key) := event.command;
      CompletedTransfer(before, source, destination, amount, description, key);
      var a, b := after.ledger[|before.ledger|], after.ledger[|before.ledger| + 1];
      TwoCashRowsFit(start, before, after, id, a, b, flow);
    } else if outcome.Executed? {
      var change := if event.command.side.BuySide? then -outcome.amount else outcome.amount;
      RoundCentsWhole(before.balances[CashRow(event.command)] + change);
    }
  }

  lemma TwoCashRowsFit(start: Db, before: Db, after: Db, id: string, a: Entry, b: Entry, flow: int)
    requires CashIsExplained(start, before, id, flow) && Party(Investment, id) in after.balances
    requires after.ledger == before.ledger + [a, b]
    requires a.account == Party(Investment, id) ==>
               CashSigns([a]) && a.balanceAfter == before.balances[a.account] + CashChange(a)
    requires var middle := before.balances[Party(Investment, id)] +
                           if a.account == Party(Investment, id) then CashChange(a) else 0;
             if b.account == Party(Investment, id)
             then CashSigns([b]) && b.balanceAfter == middle + CashChange(b) &&
                  after.balances[b.account] == b.balanceAfter
             else after.balances[Party(Investment, id)] == middle
    ensures CashIsExplained(start, after, id, flow)
    ensures flow == 0 && CashRuns(start, before, id) ==> CashRuns(start, after, id)
  {
    var account := Party(Investment, id);
    var added := before.ledger[|start.ledger|..];
    assert after.ledger[|start.ledger|..] == added + [a, b];
    RowsAppend(added, a, b, account);
    var opening := start.balances[account];
    var once := MaybeAppendCash(opening, RowsOf(added, account), a, account);
    var twice := MaybeAppendCash(opening, once, b, account);
  }

  /** A row is added only to its own account's rows, and continues their running balance. */
  lemma MaybeAppendCash(start: int, rows: seq<Entry>, row: Entry, account: Party) returns (longer: seq<Entry>)
    requires CashSigns(rows) && (row.account == account ==> CashSigns([row]))
    ensures longer == rows + (if row.account == account then [row] else [])
    ensures CashSigns(longer)
    ensures CashChanges(longer) == CashChanges(rows) + if row.account == account then CashChange(row) else 0
    ensures RunningCash(start, rows) &&
            (row.account == account ==> row.balanceAfter == start + CashChanges(rows) + CashChange(row)) ==>
              RunningCash(start, longer)
  {
    longer := rows + (if row.account == account then [row] else []);
    if row.account == account {
      assert [row][0] == row;
      assert Front(longer) == rows;
      if RunningCash(start, rows) && row.balanceAfter == start + CashChanges(rows) + CashChange(row) {
        forall i | 0 <= i < |longer| ensures longer[i].balanceAfter == start + CashChanges(longer[..i + 1]) {
          if i < |rows| {
            assert longer[..i + 1] == rows[..i + 1];
          } else {
            assert longer[..i + 1] == longer;
          }
        }
      }
    } else {
      assert longer == rows;
    }
  }
}
