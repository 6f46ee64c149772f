/** The checks made before money moves: what reaches the gateway is a safe transfer. */
module InitiateTransfer {

  import opened Wrappers
  import opened PartyOrder
  import opened Ledger
  import opened Text
  import opened TransferGateway

  datatype AccountType = Checking | Savings

  datatype BankAccount = BankAccount(owner: string, accountType: AccountType, iban: string)

  /** The account tables as the use case reads them; investment accounts are known by their owner. */
  datatype Accounts = Accounts(bank: map<string, BankAccount>, investment: map<string, string>)

  datatype Request = Request(
    user: string,
    sourceKind: Kind,
    sourceId: string,
    destinationId: string,
    destinationIban: string,
    amount: real,
    description: string,
    idempotencyKey: Option<string>)

  datatype Prepared = Refused(message: string) | Accepted(transfer: Command)

  const EPSILON := 1.0 / 4503599627370496.0

  /** Cents of `Math.round((value + Number.EPSILON) * 100) / 100`. */
  function RoundMoney(value: real): int
  {
    ((value + EPSILON) * 100.0 + 0.5).Floor
  }

  datatype Resolved = Unresolved(message: string) | Resolved(party: Party)

  function ResolveSource(request: Request, accounts: Accounts): Resolved
  {
    if request.sourceKind.Bank? then
      if request.sourceId !in accounts.bank || accounts.bank[request.sourceId].owner != request.user
      then Unresolved("Source account not found")
      else Resolved(Party(Bank, request.sourceId))
    else
      if request.sourceId !in accounts.investment || accounts.investment[request.sourceId] != request.user
      then Unresolved("Investment source not found")
      else if request.destinationIban != "" then Unresolved("Investment account cannot transfer to external IBAN")
      else Resolved(Party(Investment, request.sourceId))
  }

  /** `findByIban` returns the first match; `byIban` is that choice, absent when there is none. */
  function ResolveDestination(request: Request, accounts: Accounts, byIban: Option<string>): Resolved
    requires request.sourceKind.Bank? ==> request.sourceId in accounts.bank
  {
    if request.destinationId != "" then
      if request.destinationId in accounts.bank then
        if accounts.bank[request.destinationId].owner != request.user then Unresolved("Destination not owned by user")
        else Resolved(Party(Bank, request.destinationId))
      else if request.destinationId !in accounts.investment
           || accounts.investment[request.destinationId] != request.user
      then Unresolved("Destination account not found")
      else Resolved(Party(Investment, request.destinationId))
    else if request.destinationIban != "" then
      if !request.sourceKind.Bank? then Unresolved("Investment account cannot transfer to external IBAN")
      else if !accounts.bank[request.sourceId].accountType.Checking?
      then Unresolved("Only checking can transfer to external IBAN")
      else if byIban.None? then Unresolved("Recipient IBAN not found")
      else Resolved(Party(Bank, byIban.value))
    else Unresolved("Missing destination")
  }

  predicate IbanLookup(accounts: Accounts, iban: string, found: Option<string>)
  {
    if found.Some? then found.value in accounts.bank && accounts.bank[found.value].iban == iban
    else forall id :: id in accounts.bank ==> accounts.bank[id].iban != iban
  }

  function Prepare(request: Request, accounts: Accounts, byIban: Option<string>): Prepared
  {
    if request.amount <= 0.0 || RoundMoney(request.amount) <= 0 then Refused("Invalid amount")
    else if request.sourceId == "" then Refused("Missing source account")
    else
      var source := ResolveSource(request, accounts);
      if source.Unresolved? then Refused(source.message)
      else
        var destination := ResolveDestination(request, accounts, byIban);
        if destination.Unresolved? then Refused(destination.message)
        else if source.party == destination.party then Refused("Cannot transfer to the same account")
        else Accepted(Transfer(source.party, destination.party, RoundMoney(request.amount),
                               Description(request), request.idempotencyKey))
  }

  function Description(request: Request): string
  {
    var trimmed := Trim(request.description);
    if trimmed == "" then "Transfer" else trimmed
  }

  /** Amounts are rounded to the nearest cent, halves up. */
  lemma RoundMoneyIff(value: real, cents: int)
    ensures RoundMoney(value) == cents <==>
            cents as real <= value * 100.0 + 0.5 + 100.0 * EPSILON < cents as real + 1.0
  {
    assert (value + EPSILON) * 100.0 == value * 100.0 + 100.0 * EPSILON;
  }

  predicate OwnedBy(accounts: Accounts, party: Party, user: string)
  {
    match party.kind
    case Bank => party.id in accounts.bank && accounts.bank[party.id].owner == user
    case Investment => party.id in accounts.investment && accounts.investment[party.id] == user
  }

  /** Amounts of two decimals reach the gateway unchanged. */
  lemma RoundMoneyKeepsCents(cents: int)
    ensures RoundMoney(cents as real / 100.0) == cents
  {
    assert (cents as real / 100.0 + EPSILON) * 100.0 == cents as real + 100.0 * EPSILON;
  }

  /** Where the money may go: another account of the requester, or the bank account with the given IBAN. */
  predicate Payable(request: Request, accounts: Accounts, destination: Party)
  {
    if request.destinationId != "" then
      destination.id == request.destinationId && OwnedBy(accounts, destination, request.user) &&
      (destination.kind.Investment? ==> destination.id !in accounts.bank)
    else
      destination.kind.Bank? && destination.id in accounts.bank && request.sourceKind.Bank? &&
      request.sourceId in accounts.bank && accounts.bank[request.sourceId].accountType.Checking? &&
      request.destinationIban != "" && accounts.bank[destination.id].iban == request.destinationIban
  }

  predicate IbansAreUnique(accounts: Accounts)
  {
    forall a, b :: a in accounts.bank && b in accounts.bank && a != b ==> accounts.bank[a].iban != accounts.bank[b].iban
  }

  /** The destination is resolved exactly to what may be paid, and to nothing else. */
  lemma ResolvedIffPayable(request: Request, accounts: Accounts, byIban: Option<string>, party: Party)
    requires IbanLookup(accounts, request.destinationIban, byIban) && IbansAreUnique(accounts)
    requires request.sourceKind.Bank? ==> request.sourceId in accounts.bank
    ensures ResolveDestination(request, accounts, byIban) == Resolved(party) <==> Payable(request, accounts, party)
  {
    if Payable(request, accounts, party) && request.destinationId == "" {
      assert byIban == Some(party.id);
    }
  }

  /**
   * Exactly the safe requests reach the gateway: a positive amount, from an account of the requester
   * to a different account that may be paid. IBANs are unique.
   */
  lemma AcceptedIffSafe(request: Request, accounts: Accounts, byIban: Option<string>, destination: Party)
    requires IbanLookup(accounts, request.destinationIban, byIban)
    requires IbansAreUnique(accounts)
    ensures var source := Party(request.sourceKind, request.sourceId);
            (Prepare(request, accounts, byIban).Accepted? &&
             Prepare(request, accounts, byIban).transfer.destination == destination) <==>
            (request.amount > 0.0 && RoundMoney(request.amount) > 0 && request.sourceId != "" &&
             OwnedBy(accounts, source, request.user) && source != destination &&
             (request.sourceKind.Investment? ==> request.destinationIban == "") &&
             Payable(request, accounts, destination))
    ensures Prepare(request, accounts, byIban).Accepted? ==>
              var transfer := Prepare(request, accounts, byIban).transfer;
              PositiveAmount(transfer) && transfer.source == Party(request.sourceKind, request.sourceId) &&
              transfer.amount == RoundMoney(request.amount) && transfer.idempotencyKey == request.idempotencyKey
  {
    hide Description, RoundMoney;
    if Payable(request, accounts, destination) && request.destinationId == "" {
      assert byIban == Some(destination.id);
    }
  }

  /** The description that reaches the ledger is the trimmed one, or a word in its place when nothing is left. */
  lemma AcceptedDescription(request: Request, accounts: Accounts, byIban: Option<string>)
    ensures Prepare(request, accounts, byIban).Accepted? ==>
              Prepare(request, accounts, byIban).transfer.description ==
                if Trim(request.description) == "" then "Transfer" else Trim(request.description)
  {
    hide RoundMoney, Trim, ResolveSource, ResolveDestination;
  }

  /** The request names a positive amount and an account of the requester that may pay. */
  predicate MayPay(request: Request, accounts: Accounts)
  {
    request.amount > 0.0 && RoundMoney(request.amount) > 0 && request.sourceId != "" &&
    OwnedBy(accounts, Party(request.sourceKind, request.sourceId), request.user) &&
    (request.sourceKind.Investment? ==> request.destinationIban == "")
  }

  /** What is wrong with the amount or the source is told for its own reason. */
  lemma SourceRefusedIff(request: Request, accounts: Accounts)
    ensures var source := ResolveSource(request, accounts);
            var mine := OwnedBy(accounts, Party(request.sourceKind, request.sourceId), request.user);
            (source == Unresolved("Source account not found") <==> request.sourceKind.Bank? && !mine) &&
            (source == Unresolved("Investment source not found") <==> request.sourceKind.Investment? && !mine) &&
            (source == Unresolved("Investment account cannot transfer to external IBAN") <==>
               request.sourceKind.Investment? && mine && request.destinationIban != "") &&
            (source.Resolved? <==> mine && (request.sourceKind.Investment? ==> request.destinationIban == "")) &&
            (source.Resolved? ==> source.party == Party(request.sourceKind, request.sourceId))
  {
  }

  /** What is wrong with the destination is told for its own reason, once the source may pay. */
  lemma DestinationRefusedIff(request: Request, accounts: Accounts, byIban: Option<string>)
    requires request.sourceKind.Bank? ==> request.sourceId in accounts.bank
    ensures var destination := ResolveDestination(request, accounts, byIban);
            var id := request.destinationId;
            var external := id == "" && request.destinationIban != "" && request.sourceKind.Bank?;
            (destination == Unresolved("Destination not owned by user") <==>
               id != "" && id in accounts.bank && accounts.bank[id].owner != request.user) &&
            (destination == Unresolved("Destination account not found") <==>
               id != "" && id !in accounts.bank && !OwnedBy(accounts, Party(Investment, id), request.user)) &&
            (destination == Unresolved("Only checking can transfer to external IBAN") <==>
               external && accounts.bank[request.sourceId].accountType.Savings?) &&
            (destination == Unresolved("Recipient IBAN not found") <==>
               external && accounts.bank[request.sourceId].accountType.Checking? && byIban.None?) &&
            (destination == Unresolved("Missing destination") <==> id == "" && request.destinationIban == "")
  {
  }

  /** The order of the checks: amount, source, destination, and last that the two accounts differ. */
  lemma RefusedIff(request: Request, accounts: Accounts, byIban: Option<string>)
    ensures var prepared := Prepare(request, accounts, byIban);
            var valid := request.amount > 0.0 && RoundMoney(request.amount) > 0;
            (!valid ==> prepared == Refused("Invalid amount")) &&
            (valid && request.sourceId == "" ==> prepared == Refused("Missing source account")) &&
            (valid && request.sourceId != "" && !MayPay(request, accounts) ==>
               ResolveSource(request, accounts).Unresolved? &&
               prepared == Refused(ResolveSource(request, accounts).message)) &&
            (MayPay(request, accounts) ==>
               var destination := ResolveDestination(request, accounts, byIban);
               var source := Party(request.sourceKind, request.sourceId);
               (destination.Unresolved? ==> prepared == Refused(destination.message)) &&
               (destination == Resolved(source) ==> prepared == Refused("Cannot transfer to the same account")) &&
               (prepared.Accepted? <==> destination.Resolved? && destination.party != source))
  {
    hide RoundMoney, Description, ResolveDestination;
  }

  datatype Result =
    | Failure(message: string)
    | Success(sourceBalance: int, destinationBalance: int)
    | Thrown  // the destination's row vanished after the checks

  function ResultOf(outcome: Outcome): Result
  {
    match outcome
    case InsufficientFunds => Failure("Insufficient funds")
    case Duplicate => Failure("Duplicate transfer request")
    case Completed(sourceBalance, destinationBalance) => Success(sourceBalance, destinationBalance)
    case _ => Thrown
  }

  /**
   * What an accepted request is answered, over the tables before and after it: the answer is given by the key,
   * the balance of the source and the row of the destination, and money moves only when it is a success.
   */
  predicate AnswersRequest(before: Db, after: Db, request: Request, destination: Party, result: Result)
  {
    var source, amount := Party(request.sourceKind, request.sourceId), RoundMoney(request.amount);
    var key := request.idempotencyKey;
    var taken := key.Some? && key.value != "" && key.value in before.keys;
    var covered := source in before.balances && before.balances[source] >= amount;
    (result == Failure("Duplicate transfer request") <==> taken) &&
    (result == Failure("Insufficient funds") <==> !taken && !covered) &&
    (result.Thrown? <==> !taken && covered && destination !in before.balances) &&
    (result.Success? <==> !taken && covered && destination in before.balances) &&
    (result.Success? ==>
       after.balances == before.balances[source := before.balances[source] - amount]
                                        [destination := before.balances[destination] + amount] &&
       result == Success(after.balances[source], after.balances[destination])) &&
    (!result.Success? ==> after == before)
  }

  lemma RequestIsAnswered(db: Db, request: Request, accounts: Accounts, byIban: Option<string>)
    ensures Prepare(request, accounts, byIban).Accepted? ==>
              var transfer := Prepare(request, accounts, byIban).transfer;
              var (after, outcome) := Apply(db, transfer);
              AnswersRequest(db, after, request, transfer.destination, ResultOf(outcome))
  {
    hide RoundMoney, Description, ResolveDestination;
    if Prepare(request, accounts, byIban).Accepted? {
      var Transfer(source, destination, amount, description, key) := Prepare(request, accounts, byIban).transfer;
      TransferRefusals(db, source, destination, amount, description, key);
      CompletedTransfer(db, source, destination, amount, description, key);
    }
  }

  class UseCase {
    const accounts: Accounts
    const gateway: Gateway

    constructor (accounts: Accounts, gateway: Gateway)
      ensures this.accounts == accounts && this.gateway == gateway
    {
      this.accounts, this.gateway := accounts, gateway;
    }

    method Resolve(request: Request, byIban: Option<string>) returns (destination: Resolved)
      requires request.sourceKind.Bank? ==> request.sourceId in accounts.bank
      ensures destination == ResolveDestination(request, accounts, byIban)
    {
      if request.destinationId != "" {
        if request.destinationId in accounts.bank {
          if accounts.bank[request.destinationId].owner != request.user {
            return Unresolved("Destination not owned by user");
          }
          return Resolved(Party(Bank, request.destinationId));
        }
        if request.destinationId !in accounts.investment || accounts.investment[request.destinationId] != request.user {
          return Unresolved("Destination account not found");
        }
        return Resolved(Party(Investment, request.destinationId));
      }
      if request.destinationIban != "" {
        if !request.sourceKind.Bank? {
          return Unresolved("Investment account cannot transfer to external IBAN");
        }
        if !accounts.bank[request.sourceId].accountType.Checking? {
          return Unresolved("Only checking can transfer to external IBAN");
        }
        if byIban.None? {
          return Unresolved("Recipient IBAN not found");
        }
        return Resolved(Party(Bank, byIban.value));
      }
      return Unresolved("Missing destination");
    }

    /** A refused request touches no table; an accepted one is exactly one transfer of the gateway. */
    method Execute(request: Request, byIban: Option<string>) returns (result: Result)
      requires gateway.locked == {}
      modifies gateway
      ensures gateway.locked == {}
      ensures match Prepare(request, accounts, byIban)
              case Refused(message) => gateway.Tables() == old(gateway.Tables()) && result == Failure(message)
              case Accepted(transfer) =>
                var (tables, outcome) := Apply(old(gateway.Tables()), transfer);
                gateway.Tables() == tables && result == ResultOf(outcome)
      ensures Prepare(request, accounts, byIban).Accepted? ==>
                AnswersRequest(old(gateway.Tables()), gateway.Tables(), request,
                               Prepare(request, accounts, byIban).transfer.destination, result)
    {
      RequestIsAnswered(gateway.Tables(), request, accounts, byIban);
      hide Apply, ResultOf, AnswersRequest;
      if request.amount <= 0.0 {
        return Failure("Invalid amount");
      }
      var amount := RoundMoney(request.amount);
      if amount <= 0 {
        return Failure("Invalid amount");
      }
      if request.sourceId == "" {
        return Failure("Missing source account");
      }
      var source: Party;
      if request.sourceKind.Bank? {
        if request.sourceId !in accounts.bank || accounts.bank[request.sourceId].owner != request.user {
          return Failure("Source account not found");
        }
        source := Party(Bank, request.sourceId);
      } else {
        if request.sourceId !in accounts.investment || accounts.investment[request.sourceId] != request.user {
          return Failure("Investment source not found");
        }
        if request.destinationIban != "" {
          return Failure("Investment account cannot transfer to external IBAN");
        }
        source := Party(Investment, request.sourceId);
      }
      var destination := Resolve(request, byIban);
      if destination.Unresolved? {
        return Failure(destination.message);
      }
      if source == destination.party {
        return Failure("Cannot transfer to the same account");
      }
      var outcome :=
        gateway.Execute(source, destination.party, amount, Description(request), request.idempotencyKey);
      return ResultOf(outcome);
    }
  }
}
