/** `TransferGateway.execute`, statement by statement, as one transaction over the tables. */
module TransferGateway {

  import opened Wrappers
  import opened PartyOrder
  import opened Ledger
  import opened TradingMath

  class Gateway {
    var balances: map<Party, int>
    var ledger: seq<Entry>
    var keys: set<string>
    var locked: set<Party>

    // Tables that a transfer never touches.
    const active: set<string>
    const positions: map<Holding, Position>

    ghost function Tables(): Db
      reads this
    {
      Db(balances, ledger, keys, active, positions)
    }

    constructor (db: Db)
      ensures Tables() == db && locked == {}
    {
      balances, ledger, keys, locked := db.balances, db.ledger, db.keys, {};
      active, positions := db.active, db.positions;
    }

    /** The insert that does nothing on a conflict; false is an empty result. */
    method InsertKey(key: string) returns (inserted: bool)
      modifies this`keys
      ensures inserted == (key !in old(keys))
      ensures keys == old(keys) + {key}
    {
      inserted := key !in keys;
      keys := keys + {key};
    }

    method LockRow(party: Party)
      modifies this`locked
      ensures locked == if party in balances then old(locked) + {party} else old(locked)
    {
      if party in balances {
        locked := locked + {party};
      }
    }

    /** None when the row is missing or its balance is too small. */
    method DecrementIfSufficient(party: Party, amount: int) returns (balance: Option<int>)
      requires party in balances ==> party in locked
      modifies this`balances
      ensures balance.None? <==> party !in old(balances) || old(balances)[party] < amount
      ensures balance.None? ==> balances == old(balances)
      ensures balance.Some? ==>
                balance.value == old(balances)[party] - amount && balances == old(balances)[party := balance.value]
    {
      if party in balances && balances[party] >= amount {
        balances := balances[party := balances[party] - amount];
        return Some(balances[party]);
      }
      return None;
    }

    /** None when the row is missing. */
    method Increment(party: Party, amount: int) returns (balance: Option<int>)
      requires party in balances ==> party in locked
      modifies this`balances
      ensures balance.None? <==> party !in old(balances)
      ensures balance.None? ==> balances == old(balances)
      ensures balance.Some? ==>
                balance.value == old(balances)[party] + amount && balances == old(balances)[party := balance.value]
    {
      if party in balances {
        balances := balances[party := balances[party] + amount];
        return Some(balances[party]);
      }
      return None;
    }

    method WriteLedger(party: Party, direction: Direction, amount: int, balanceAfter: int, description: string)
      modifies this`ledger
      ensures ledger == old(ledger) + [NewEntry(party, direction, amount, balanceAfter, description)]
      ensures party.kind.Bank? && direction.Out? ==>
                ledger == old(ledger) + [Entry(party, DebitRow, description, -amount, balanceAfter)]
      ensures party.kind.Bank? && direction.In? ==>
                ledger == old(ledger) + [Entry(party, TransferRow, description, amount, balanceAfter)]
      ensures party.kind.Investment? && direction.Out? ==>
                ledger == old(ledger) + [Entry(party, WithdrawalRow, description, amount, balanceAfter)]
      ensures party.kind.Investment? && direction.In? ==>
                ledger == old(ledger) + [Entry(party, DepositRow, description, amount, balanceAfter)]
    {
      if party.kind == Bank {
        var kind := if direction == Out then DebitRow else TransferRow;
        var signed := if direction == Out then -amount else amount;
        ledger := ledger + [Entry(party, kind, description, signed, balanceAfter)];
      } else {
        var kind := if direction == Out then WithdrawalRow else DepositRow;
        ledger := ledger + [Entry(party, kind, description, amount, balanceAfter)];
      }
    }

    /** Ends the transaction: on a rollback the tables go back to what they were. */
    method EndTransaction(commit: bool, savedBalances: map<Party, int>, savedLedger: seq<Entry>, savedKeys: set<string>)
      modifies this
      ensures locked == {}
      ensures commit ==> Tables() == old(Tables())
      ensures !commit ==> balances == savedBalances && ledger == savedLedger && keys == savedKeys
    {
      locked := {};
      if !commit {
        balances, ledger, keys := savedBalances, savedLedger, savedKeys;
      }
    }

    /**
     * The work inside the transaction, up to its return or its throw: the tables it leaves when it returns are
     * those of the serial transfer; when it throws, for lack of funds or of a destination, they do not matter.
     */
    method InTransaction(source: Party, destination: Party, amount: int, description: string, key: Option<string>)
      returns (outcome: Outcome)
      requires locked == {}
      modifies this
      ensures var (tables, serial) := Apply(old(Tables()), Transfer(source, destination, amount, description, key));
              outcome == serial && (outcome.Completed? || outcome.Duplicate? ==> Tables() == tables)
    {
      hide NewEntry, Before, ApplyOrder;
      ghost var savedKeys := keys;
      if key.Some? && key.value != "" {
        var inserted := InsertKey(key.value);
        if !inserted {
          assert keys == savedKeys;
          return Duplicate;
        }
      }

      var ordered := Sorted(source, destination);
      for i := 0 to |ordered|
        invariant balances == old(balances) && ledger == old(ledger)
        invariant keys == if key.Some? && key.value != "" then savedKeys + {key.value} else savedKeys
        invariant forall j :: 0 <= j < i && ordered[j] in balances ==> ordered[j] in locked
      {
        LockRow(ordered[i]);
      }
      assert source in ordered && destination in ordered;

      var newSource := DecrementIfSufficient(source, amount);
      if newSource.None? {
        return InsufficientFunds;
      }
      WriteLedger(source, Out, amount, newSource.value, description);

      var newDestination := Increment(destination, amount);
      if newDestination.None? {
        return DestinationNotFound;
      }
      WriteLedger(destination, In, amount, newDestination.value, description);

      assert ledger == old(ledger) + [NewEntry(source, Out, amount, newSource.value, description),
                                      NewEntry(destination, In, amount, newDestination.value, description)];
      return Completed(newSource.value, newDestination.value);
    }

    /**
     * What one call does to the tables, and what it returns, is the serial meaning of the transfer: it answers
     * by the key, the two rows and the balance, and a completed one moves the amount and writes two ledger rows.
     */
    method Execute(source: Party, destination: Party, amount: int, description: string, key: Option<string>)
      returns (outcome: Outcome)
      requires locked == {}
      modifies this
      ensures (Tables(), outcome) == Apply(old(Tables()), Transfer(source, destination, amount, description, key))
      ensures locked == {}
      ensures var taken := key.Some? && key.value != "" && key.value in old(keys);
              var covered := source in old(balances) && old(balances)[source] >= amount;
              (outcome == Duplicate <==> taken) &&
              (outcome == InsufficientFunds <==> !taken && !covered) &&
              (outcome == DestinationNotFound <==> !taken && covered && destination !in old(balances)) &&
              (outcome.Completed? <==> !taken && covered && destination in old(balances))
      ensures !outcome.Completed? ==> Tables() == old(Tables())
      ensures outcome.Completed? && source != destination ==>
                balances == old(balances)[source := old(balances)[source] - amount]
                                         [destination := old(balances)[destination] + amount] &&
                outcome == Completed(balances[source], balances[destination])
      ensures outcome.Completed? && source == destination ==>
                balances == old(balances) && outcome == Completed(balances[source] - amount, balances[source])
      ensures outcome.Completed? ==>
                keys == (if key.Some? && key.value != "" then old(keys) + {key.value} else old(keys)) &&
                ledger == old(ledger) +
                  [if source.kind.Bank? then Entry(source, DebitRow, description, -amount, outcome.sourceBalance)
                   else Entry(source, WithdrawalRow, description, amount, outcome.sourceBalance),
                   if destination.kind.Bank?
                   then Entry(destination, TransferRow, description, amount, outcome.destinationBalance)
                   else Entry(destination, DepositRow, description, amount, outcome.destinationBalance)]
    {
      TransferRefusals(Tables(), source, destination, amount, description, key);
      CompletedTransfer(Tables(), source, destination, amount, description, key);
      var savedBalances, savedLedger, savedKeys := balances, ledger, keys;
      outcome := InTransaction(source, destination, amount, description, key);
      EndTransaction(outcome.Completed? || outcome.Duplicate?, savedBalances, savedLedger, savedKeys);
    }
  }
}
