# ForReal bank: a model of its hardest behaviour, with proofs

The project models six parts of the bank as Dafny programs and proves what they promise over every input and
every run. Balances and prices are integers of cents, quantities integers of 1e-8 units, and everything between
them exact reals. Concurrent parts are state machines whose every step is one database call or one handler, and
whose runs are arbitrary sequences of such steps; code that changes things in place is a class or a loop proved
against the same functions that the machines use.

- **Moving money** (`PartyOrder`, `Ledger`, `TransferSteps`, `TransferConcurrency`, `TransferGateway`,
  `InitiateTransfer`, `Statement`). `Ledger` gives one command its serial meaning. `TransferSteps` interleaves any number of
  transactions that insert keys, lock rows in order, write privately and commit, roll back or lose their
  connection; `TransferConcurrency` shows that they deadlock never and amount to a serial run. `Statement` carries the ledger to the
  statement the customer sees.
- **Trading** (`TradingMath`, `Positions`, `TradingController`). Orders as trades on a position, with a bound on
  what rounding does to the average price.
- **Presence** (`Presence`, `PresenceEvents`, `PresenceCluster`, `PresenceConvergence`, `ChatGateway`). Any number
  of API instances over a bus that may lose and reorder messages, with one clock reading per handler.
- **Private conversations** (`OpenConversation`, `OpenPrivateConversation`). The create-then-converge protocol.
- **Messages** (`Text`, `PercentEncoding`, `Attachments`, `Unread`, `UnreadStore`). Printing and parsing message
  content; two unread counters kept in different ways.
- **Bounded machines** (`LeastLoaded`, `AdvisorAssignment`, `AdvisorConcurrency`, `LoginLockout`, `LoginUser`,
  `LoginConcurrency`, `LoginOverlap`, `RateLimiter`, `BanRequests`, `BanRequestsService`). Where the source waits between reading
  and writing, the wait is a step at which others run.

`Wrappers`, `Sequences` and `Sums` hold what several of these share. `dafny verify dfyconfig.toml` checks everything.

What the models assume of the world outside:

- PostgreSQL is maps, row locks held to the end of a transaction, and unique keys; an uncommitted key blocks others
  that insert it. The statements that return rows (`TransferGateway.ts` lines 121 and 137) give the row array they
  are typed with. Ledger rows are in commit order.
- Commands have positive amounts of at most two decimals and quantities of at most eight, as the request
  validation demands. Quotes are arbitrary positive prices in cents.
- Ids of new rows are new. New conversations have creation times of their own, in any order.
- What hashers, second factors, membership checks, banning and disconnecting answer is a parameter.
- Characters are Unicode scalar values, so names with lone surrogates, which the source refuses to encode, do not
  occur.

Some expectations one might have are false of the code. Each has a lemma with a concrete case, and the exact
condition or bound under which the code meets it:

- statements sorted by day add up: `Statement.DialogCounterexample`, `Statement.DialogAddsUpIff`;
- room lists are complete for users with several tabs: `Presence.TwoTabsCounterexample`,
  `Presence.DisconnectKeepsCompleteIff`, `Presence.LeaveKeepsCompleteIff`;
- each pair keeps one conversation: `OpenConversation.TwoRemain`, `OpenConversation.NoTwoRemainIff`;
- the unread counters stay equal: `Unread.MarkAllCounterexample`, `Unread.CountersAgreeIff`;
- loads stay balanced when choices overlap: `AdvisorConcurrency.StaleCountsCounterexample`,
  `AdvisorConcurrency.BalancedIff`, `AdvisorConcurrency.OverlapCostsLessThan`;
- five wrong passwords lock an account when attempts overlap: `LoginOverlap.SixAtOnceCounterexample`,
  `LoginOverlap.SlowSaveUnlocks`, `LoginConcurrency.SeparateAttemptsAreBounded`, and for c attempts at a time
  `LoginOverlap.OverlappingAttemptsAreBounded` with `LoginOverlap.OverlapBoundIsReached`;
- the client of an accepted request is banned: `BanRequests.DeathCounterexample`,
  `BanRequests.AcceptedIsUnappliedIff`.

## Model

| member | source | states |
|---|---|---|
| `TransferConcurrency.EveryRunIsSerial` | packages/infrastructure/typeorm/src/repositories/TransferGateway.ts:28-108 | After any interleaving of transfers and orders the committed tables equal running the recorded commands one by one in commit order, and every caller got exactly the outcome that serial run gives |
| `TransferConcurrency.OnlyCommittedCommandsMatter` | packages/infrastructure/typeorm/src/repositories/TransferGateway.ts:28-108 | Running only the commands that succeeded gives the same tables: failed, duplicate and rolled-back ones leave no trace |
| `TransferConcurrency.NoRunDeadlocks` | packages/infrastructure/typeorm/src/repositories/TransferGateway.ts:46-55 | In every reachable state with an unfinished transaction some transaction can take a step, crossed transfers included |
| `TransferConcurrency.EveryRunCanFinish` | packages/infrastructure/typeorm/src/repositories/TransferGateway.ts:28-108 | From every reachable state the transactions under way can all be run to the end by steps alone |
| `TransferConcurrency.UndisturbedCommand` | packages/infrastructure/typeorm/src/repositories/TransferGateway.ts:28-108 | After any run that left nothing under way, a command begun and run by its own steps comes to an end, and has then done to the tables and been answered exactly what its serial meaning says |
| `TransferConcurrency.AtMostOncePerKey` | packages/infrastructure/typeorm/src/repositories/TransferGateway.ts:31-44 | In no interleaving do two transfers with one key complete; a completed key was free at the start and is taken now |
| `TransferConcurrency.MoneyInEveryRun` | apps/api-nest/src/interface/trading/trading.controller.ts:280-389 | In every reachable state bank plus investment cash is the start value minus executed buys plus executed sells, no balance is negative, and each held quantity is buys minus sells |
| `TransferConcurrency.LedgerInEveryRun` | packages/infrastructure/typeorm/src/repositories/TransferGateway.ts:149-178 | In every reachable state each bank account's ledger rows replay, row by row, from its start balance to its balance |
| `TransferConcurrency.CashInEveryRun` | packages/infrastructure/typeorm/src/repositories/TransferGateway.ts:149-178 | In every reachable state an investment account's cash is its start value plus deposits minus withdrawals of its ledger rows plus what its executed orders moved; without such orders its rows replay row by row |
| `TransferConcurrency.EveryRunKeepsInv` | packages/infrastructure/typeorm/src/repositories/TransferGateway.ts:28-108 | The locking and pending-key discipline of the machine holds after every interleaving |
| `TransferConcurrency.SomeoneCanStep` | packages/infrastructure/typeorm/src/repositories/TransferGateway.ts:46-55 | Any state meeting the invariant with an unfinished transaction has one that can step |
| `TransferConcurrency.StuckWaitsForRow` | packages/infrastructure/typeorm/src/repositories/TransferGateway.ts:33-55 | Past its key, a transaction that cannot step waits for a row that another transaction holds |
| `TransferConcurrency.WaitsInOrder` | packages/infrastructure/typeorm/src/repositories/TransferGateway.ts:48-55 | A stuck transaction that holds a row waits for a row later in the lock order, so waiting never cycles |
| `TransferSteps.CommitPublishes` | packages/infrastructure/typeorm/src/repositories/TransferGateway.ts:57-98 | A commit publishes exactly what its command does alone on the committed tables of that moment |
| `TransferSteps.CommitKeepsView` | packages/infrastructure/typeorm/src/repositories/TransferGateway.ts:53-55 | A commit changes no row that another transaction has locked |
| `TransferSteps.WritesAreHeld` | packages/infrastructure/typeorm/src/repositories/TransferGateway.ts:115-145 | Whatever a transaction writes, it holds the lock of |
| `TransferSteps.CommitIsApply` | packages/infrastructure/typeorm/src/repositories/TransferGateway.ts:57-98 | The private steps of a transaction, taken in any interleaving, add up to the serial meaning of its command |
| `TransferGateway.Gateway.Execute` | packages/infrastructure/typeorm/src/repositories/TransferGateway.ts:28-108 | One call is the serial transfer: duplicate, insufficient funds, missing destination and completion each on its own condition; a completed call moves the amount between the two balances, returns both and appends a debit or withdrawal and a credit row spelled out per table, any other changes nothing |
| `TransferGateway.Gateway.InTransaction` | packages/infrastructure/typeorm/src/repositories/TransferGateway.ts:30-98 | The callback of the transaction: when it returns it has done to the tables what the serial transfer does, and its answer or throw is that transfer's outcome |
| `TransferGateway.Gateway.InsertKey` | packages/infrastructure/typeorm/src/repositories/TransferGateway.ts:33-44 | Inserting a key reports whether it was new and leaves it taken |
| `TransferGateway.Gateway.LockRow` | packages/infrastructure/typeorm/src/repositories/TransferGateway.ts:110-113 | Locking an existing row adds it to the held rows; a missing row locks nothing |
| `TransferGateway.Gateway.DecrementIfSufficient` | packages/infrastructure/typeorm/src/repositories/TransferGateway.ts:115-129 | Debits exactly when the row exists and covers the amount, and returns the new balance |
| `TransferGateway.Gateway.Increment` | packages/infrastructure/typeorm/src/repositories/TransferGateway.ts:131-145 | Credits exactly when the row exists, and returns the new balance |
| `TransferGateway.Gateway.WriteLedger` | packages/infrastructure/typeorm/src/repositories/TransferGateway.ts:149-178 | Appends a debit with the negated amount or a transfer for a bank account, a withdrawal or a deposit with the amount as it is for an investment account, with the balance after it |
| `TransferGateway.Gateway.EndTransaction` | packages/infrastructure/typeorm/src/repositories/TransferGateway.ts:99-107 | A rollback restores every table, a commit keeps them, and both release the rows |
| `PartyOrder.BeforeIsStrictTotalOrder` | packages/infrastructure/typeorm/src/repositories/TransferGateway.ts:48-52 | Comparing kind:id strings is a strict total order on the parties, one that never confuses two of them |
| `PartyOrder.CrossedTransfersLockAlike` | packages/infrastructure/typeorm/src/repositories/TransferGateway.ts:46-55 | A transfer and its reverse lock the same rows in the same order |
| `PartyOrder.KeyInjective` | packages/infrastructure/typeorm/src/repositories/TransferGateway.ts:49-50 | Two parties with the same sort key are the same party |
| `Ledger.TransferCompletesIff` | packages/infrastructure/typeorm/src/repositories/TransferGateway.ts:28-98 | A transfer completes exactly when its key is free, the source covers the amount and the destination exists |
| `Ledger.TransferRefusals` | packages/infrastructure/typeorm/src/repositories/TransferGateway.ts:28-108 | Duplicate exactly for a taken key, insufficient funds exactly for a free key and a missing or short source, destination not found exactly when only that row is missing |
| `Ledger.CompletedTransfer` | packages/infrastructure/typeorm/src/repositories/TransferGateway.ts:57-98 | A completed transfer takes the amount from the source and gives it to the destination, returns those two balances, appends exactly two rows with account, kind, sign, amount, balance and description for each table, takes its key and touches nothing else |
| `Ledger.OrderOutcomes` | apps/api-nest/src/interface/trading/trading-order.policy.ts:3-20 | A market order executes exactly on an existing active account with cash for the amount, or with the quantity held; each refusal exactly for its own reason, in the order of the checks |
| `Ledger.ExecutedOrder` | apps/api-nest/src/interface/trading/trading.controller.ts:316-389 | An executed order moves cash by its amount and one position: opened at the price, grown with the mean price to the nearest cent, reduced, or removed at zero; no other row, key or ledger row changes |
| `Ledger.FailureLeavesNoTrace` | packages/infrastructure/typeorm/src/repositories/TransferGateway.ts:99-107 | A command with any other outcome leaves all tables as they were |
| `Ledger.CommandConserves` | packages/infrastructure/typeorm/src/repositories/TransferGateway.ts:57-98 | A transfer keeps total money; an order changes it by its amount only |
| `Ledger.MoneyIsConserved` | apps/api-nest/src/interface/trading/trading.controller.ts:280-389 | Over any history, total bank plus investment money is the start value minus buys plus sells |
| `Ledger.NoBalanceGoesNegative` | packages/infrastructure/typeorm/src/repositories/TransferGateway.ts:57-68 | Over any history from non-negative balances no balance becomes negative |
| `Ledger.HoldingsAreBuysMinusSells` | apps/api-nest/src/interface/trading/trading.controller.ts:356-389 | Over any mixed history each held quantity is exactly what was bought minus what was sold |
| `Ledger.PositionsFollowTrades` | apps/api-nest/src/interface/trading/trading.controller.ts:316-389 | Over any mixed history each position row is the fold of its own trades and of nothing else |
| `Ledger.KeyTakenIff` | packages/infrastructure/typeorm/src/repositories/TransferGateway.ts:33-44 | A key is taken exactly when it was at the start or a transfer carrying it has completed |
| `Ledger.RepeatIsDuplicate` | packages/infrastructure/typeorm/src/repositories/TransferGateway.ts:41-43 | A repeat of a completed key is a duplicate and changes nothing |
| `Ledger.AtMostOneCompletes` | packages/infrastructure/typeorm/src/repositories/TransferGateway.ts:33-44 | In any history at most one transfer per key completes, none if it was taken at the start |
| `Ledger.FailedKeyMayBeRetried` | packages/infrastructure/typeorm/src/repositories/TransferGateway.ts:31-72 | A key whose transfers have all failed is free, and the next one with it completes exactly when the accounts allow it |
| `Ledger.FailuresMayBeLeftOut` | packages/infrastructure/typeorm/src/repositories/TransferGateway.ts:99-107 | Removing the failed commands from a history changes neither the tables nor any other outcome |
| `Ledger.BankLedgerReplaysToBalance` | packages/infrastructure/typeorm/src/repositories/TransferGateway.ts:149-178 | After any history every bank row's balance_after is the start balance plus the signed rows up to it, and the last one is the balance |
| `Ledger.CashLedgerExplainsBalance` | packages/infrastructure/typeorm/src/repositories/TransferGateway.ts:149-178 | After any history the cash of an investment account is its start value plus the signed rows plus what its orders moved; without its own orders every row carries the running balance |
| `Ledger.CommandKeepsLedger` | packages/infrastructure/typeorm/src/repositories/TransferGateway.ts:149-178 | Every command appends rows that continue their own account's running balance |
| `InitiateTransfer.AcceptedIffSafe` | packages/application/src/transactions/usecases/InitiateTransferUseCase.ts:49-161 | A request reaches the gateway exactly when its amount is positive, its source is the requester's own and its destination may be paid and differs, and then with those parties, that amount and that key |
| `InitiateTransfer.UseCase.Execute` | packages/application/src/transactions/usecases/InitiateTransferUseCase.ts:49-121 | A refused request touches no table and answers with its reason; an accepted one is one transfer of the gateway and is answered by what the key, the source and the destination rows are |
| `InitiateTransfer.RequestIsAnswered` | packages/application/src/transactions/usecases/InitiateTransferUseCase.ts:93-121 | For an accepted request: success exactly when the key is free, the source covers the amount and the destination exists, with the balances of the new tables; the duplicate and insufficient-funds messages exactly for theirs; nothing moves otherwise |
| `InitiateTransfer.SourceRefusedIff` | packages/application/src/transactions/usecases/InitiateTransferUseCase.ts:61-91 | A source is refused as not found exactly when it is not the requester's, and an investment source for naming an IBAN exactly when it does |
| `InitiateTransfer.DestinationRefusedIff` | packages/application/src/transactions/usecases/InitiateTransferUseCase.ts:123-161 | Each message about the destination is given exactly for its own reason |
| `InitiateTransfer.RefusedIff` | packages/application/src/transactions/usecases/InitiateTransferUseCase.ts:49-121 | The checks come in order: amount, source, destination, and last that the two accounts differ |
| `InitiateTransfer.AcceptedDescription` | packages/application/src/transactions/usecases/InitiateTransferUseCase.ts:93-104 | The description that reaches the ledger is the trimmed one, or the word Transfer when nothing is left |
| `InitiateTransfer.RoundMoneyIff` | packages/application/src/transactions/usecases/InitiateTransferUseCase.ts:32-34 | Amounts are rounded to the nearest cent, halves up, with the source's epsilon |
| `InitiateTransfer.ResolvedIffPayable` | packages/application/src/transactions/usecases/InitiateTransferUseCase.ts:123-161 | The destination is resolved exactly to an account of the requester, or to the bank account with the given IBAN for a transfer from a checking account, and to nothing else |
| `InitiateTransfer.RoundMoneyKeepsCents` | packages/application/src/transactions/usecases/InitiateTransferUseCase.ts:32-34 | An amount of two decimals passes the rounding unchanged |
| `TradingController.Desk.CreateOrder` | apps/api-nest/src/interface/trading/trading.controller.ts:263-348 | An order for a proposed, tradable and supported asset on an account of the user executes exactly when the account is active and has the cash for price times quantity, or holds the quantity; cash moves by that amount, the position by the trade, the account is valued, and each refusal has its reason and changes nothing |
| `TradingController.Desk.Buy` | apps/api-nest/src/interface/trading/trading.controller.ts:356-380 | Buying moves the position by the specification of a buy and pays its amount |
| `TradingController.Desk.Sell` | apps/api-nest/src/interface/trading/trading.controller.ts:382-389 | Selling reduces or removes the position and receives its amount |
| `TradingController.Desk.RefreshAccountValuation` | apps/api-nest/src/interface/trading/trading.controller.ts:391-409 | The loop's total is the value of all positions of the account, plus its cash |
| `TradingController.ValuationOfList` | apps/api-nest/src/interface/trading/trading.controller.ts:391-409 | In whatever order the positions are read: the stored value is cash plus quantity times quote, or average price without a quote, and the gain that worth less quantity times average, both to the nearest cent |
| `TradingController.EmptyAccountIsCash` | apps/api-nest/src/interface/trading/trading.controller.ts:391-409 | An account without positions is worth its cash and has no gain |
| `Positions.HeldIsBoughtMinusSold` | apps/api-nest/src/interface/trading/trading.controller.ts:356-389 | The fold of any trades holds buys minus sells, with a row only for a positive quantity |
| `Positions.AverageStaysBetweenBuyPrices` | apps/api-nest/src/interface/trading/trading.controller.ts:361-368 | The stored average never leaves the range of buy prices since the position opened |
| `Positions.AverageErrorIsBounded` | apps/api-nest/src/interface/trading/trading.controller.ts:361-368 | After k buys the stored average differs from the exact weighted average by at most (k-1) times 0.005 + 1e-9 in currency |
| `Positions.ExactAverageOfBuysIsCostPerShare` | apps/api-nest/src/interface/trading/trading.controller.ts:361-368 | Without sells the exact average that the bound is about, times the total quantity, is the total cost |
| `TradingMath.RoundCentsBound` | apps/api-nest/src/interface/trading/market-quotes.ts:223-225 | Rounding moves a value by at most half a cent and the epsilon |
| `TradingMath.RoundCentsMonotone` | apps/api-nest/src/interface/trading/market-quotes.ts:223-225 | Rounding keeps the order of values |
| `TradingMath.RoundCentsWhole` | apps/api-nest/src/interface/trading/market-quotes.ts:223-225 | Whole cents are left alone |
| `TradingMath.ExecutionAmountIsPriceTimesQuantity` | apps/api-nest/src/interface/trading/trading-order.policy.ts:10 | The amount of an order is price times quantity rounded to the one nearest cent, halves up, within half a cent and the epsilon |
| `TradingMath.WholeSharesCostTheirPrice` | apps/api-nest/src/interface/trading/trading-order.policy.ts:10 | Whole shares cost exactly their price each |
| `TradingMath.ExecutionAmountNonNegative` | apps/api-nest/src/interface/trading/trading-order.policy.ts:3-20 | The amount of an order is never negative |
| `TradingMath.NegligibleIsZero` | apps/api-nest/src/interface/trading/trading.controller.ts:382-389 | The 1e-9 test drops a position exactly at zero, for quantities of eight decimals |
| `TradingMath.MeanBetween` | apps/api-nest/src/interface/trading/trading.controller.ts:361-368 | The rounded mean of two prices lies between them |
| `Statement.StatementInEveryRun` | apps/web-next/src/features/statements/generateStatementPdf.ts:46-60 | In every state of the transfer machine, every statement over a contiguous ledger-order slice of a bank account adds up, and one that reaches the end closes at the balance |
| `Statement.StatementsAddUp` | apps/web-next/src/features/statements/generateStatementPdf.ts:46-60 | After any serial history every such slice has opening plus credits minus debits equal to closing |
| `Statement.SliceAddsUp` | apps/web-next/src/features/statements/generateStatementPdf.ts:46-60 | Any non-empty contiguous slice of rows with running balances adds up |
| `Statement.DisplayKeepsSign` | apps/web-next/src/features/dashboard/api.ts:50-60 | The controller's sign mapping followed by the client's recovers the stored signed amount |
| `Statement.TotalsAreSignedSum` | apps/web-next/src/features/statements/generateStatementPdf.ts:46-60 | Total credits minus total debits is the signed sum of the rows |
| `Statement.TotalsByKind` | apps/web-next/src/features/statements/generateStatementPdf.ts:46-60 | Total credits are what was received and total debits what was paid |
| `Statement.ApiKeepsAmountIff` | apps/api-nest/src/interface/transactions/transactions.controller.ts:88-93 | The API sends the stored amount exactly when its sign fits the kind of row |
| `Statement.SortIsStable` | apps/web-next/src/features/statements/StatementModal.tsx:137-143 | The sort puts the days in order and keeps the rows of each day and their order |
| `Statement.DialogAddsUpIff` | apps/web-next/src/features/statements/StatementModal.tsx:137-143 | Sorted by day, the statement adds up exactly when the first day's rows before its last one and the last day's rows after its first one cancel out |
| `Statement.DialogAddsUpWithLoneEnds` | apps/web-next/src/features/statements/StatementModal.tsx:137-143 | One row on the first day and one on the last are enough |
| `Statement.DialogCounterexample` | apps/web-next/src/features/statements/StatementModal.tsx:137-143 | Two deposits on one day do not add up when sorted by day, though they do in ledger order |
| `PresenceConvergence.PresenceConverges` | apps/api-nest/src/interface/chat/chat.gateway.ts:143-174 | Over a lossy, reordering bus: once connections are quiet, old messages drained and each live instance has recent later news of the others, every live instance reports exactly the union of connected users |
| `PresenceConvergence.PresenceConvergesAfterOneMinute` | apps/api-nest/src/interface/chat/chat.gateway.ts:143-174 | Waiting out the time to live replaces the condition about peers that died |
| `PresenceConvergence.ReportedUsersWereOnline` | apps/api-nest/src/interface/chat/chat.gateway.ts:163-174 | Any user ever reported online is connected here or was in a set its peer truly had, received at most 60 s ago |
| `PresenceConvergence.RumoursWereTrue` | apps/api-nest/src/interface/chat/chat-cluster.bus.ts:81-88 | Whatever is in flight or stored about a peer was true of it when sent |
| `PresenceCluster.ClientsFollowEvents` | apps/api-nest/src/interface/chat/chat.gateway.ts:200-213 | In every run each client's view is the set announced last, which is the fold of all events, and no event repeats a status |
| `PresenceCluster.AnnouncedSetIsTrue` | apps/api-nest/src/interface/chat/chat.gateway.ts:200-213 | Every handler that changes who is online announces the true online set of that moment; the others change neither |
| `PresenceCluster.SnapshotIsLastBroadcast` | apps/api-nest/src/interface/chat/chat.gateway.ts:371-386 | The snapshot given on connecting is the set announced last |
| `PresenceCluster.EveryRunIsOk` | apps/api-nest/src/interface/chat/chat.gateway.ts:371-411 | Views, counts and announced sets stay consistent through every interleaving of handlers, deliveries, losses and crashes |
| `PresenceCluster.NetworkAfter` | apps/api-nest/src/interface/chat/chat-cluster.bus.ts:81-88 | After each action the bus holds what it held, less what was delivered or lost, and from a connection, a disconnection or a heartbeat one packet for every instance with the local set it leaves |
| `PresenceCluster.NodesAfter` | apps/api-nest/src/interface/chat/chat.gateway.ts:143-174 | After each action exactly which instances are up, and that only the handlers of an instance change its state |
| `PresenceCluster.HeartbeatIsHeard` | apps/api-nest/src/interface/chat/chat.gateway.ts:143-146 | A heartbeat that is delivered leaves its receiver with the sender's local set, stamped now |
| `PresenceEvents.DeltaFolds` | apps/web-next/src/features/chat/useChat.ts:133-151 | The emitted changes bring a client from the old set to the new one, each change effective |
| `PresenceEvents.FoldAppend` | apps/web-next/src/features/chat/useChat.ts:142-151 | Folding two batches of events one after the other is folding them together |
| `Presence.EveryRunCountsSockets` | apps/api-nest/src/interface/chat/chat.gateway.ts:215-234 | In every reachable state a user's count is the number of their connected sockets and every user listed in a room has a connected socket joined to it |
| `Presence.OnlineAreConnected` | apps/api-nest/src/interface/chat/chat.gateway.ts:156-160 | The local online users are exactly the users of connected sockets |
| `Presence.OnlineIff` | apps/api-nest/src/interface/chat/chat.gateway.ts:163-174 | Online is exactly who has a socket here or was in what a peer said at most 60 seconds ago |
| `Presence.SocketsAfter` | apps/api-nest/src/interface/chat/chat.gateway.ts:371-604 | For every handler, exactly which sockets are connected and which conversations each has joined afterwards |
| `Presence.ListedAfter` | apps/api-nest/src/interface/chat/chat.gateway.ts:388-604 | For every handler, exactly who is listed in a room afterwards |
| `Presence.PeersAfter` | apps/api-nest/src/interface/chat/chat.gateway.ts:163-174 | For every handler, exactly what is remembered of each peer afterwards |
| `Presence.DisconnectKeepsCompleteIff` | apps/api-nest/src/interface/chat/chat.gateway.ts:388-408 | Closing a socket keeps room lists complete exactly when no other socket of its user shares a room with it |
| `Presence.LeaveKeepsCompleteIff` | apps/api-nest/src/interface/chat/chat.gateway.ts:586-604 | Leaving a room keeps the lists complete exactly when no other socket of the user is in it |
| `Presence.OtherInputsKeepComplete` | apps/api-nest/src/interface/chat/chat.gateway.ts:371-477 | No other handler makes a complete list incomplete |
| `Presence.TwoTabsCounterexample` | apps/api-nest/src/interface/chat/chat.gateway.ts:388-408 | With two tabs in a room, closing one drops the user from the list although the other is joined |
| `ChatGateway.Server.OnlineUserIds` | apps/api-nest/src/interface/chat/chat.gateway.ts:163-174 | Forgets exactly the expired peers while returning the union of local and remembered users |
| `ChatGateway.Server.PublishGlobalPresence` | apps/api-nest/src/interface/chat/chat.gateway.ts:194-196 | Publishes the local online set |
| `ChatGateway.Server.RecomputeGlobalPresence` | apps/api-nest/src/interface/chat/chat.gateway.ts:200-213 | Emits one change for each difference from the last announced set, and remembers the new one |
| `ChatGateway.Server.AddLocalPresence` | apps/api-nest/src/interface/chat/chat.gateway.ts:215-219 | Counts a socket up, publishes and announces |
| `ChatGateway.Server.RemoveLocalPresence` | apps/api-nest/src/interface/chat/chat.gateway.ts:221-234 | Counts a socket down, dropping the user at zero, publishes and announces |
| `ChatGateway.Server.HandleConnection` | apps/api-nest/src/interface/chat/chat.gateway.ts:371-386 | Connecting does what the specification says, snapshot included; an unverified socket changes nothing |
| `ChatGateway.Server.HandleDisconnect` | apps/api-nest/src/interface/chat/chat.gateway.ts:388-408 | Disconnecting removes the socket, its rooms and its user's listings as specified |
| `ChatGateway.Server.HandleJoinConversation` | apps/api-nest/src/interface/chat/chat.gateway.ts:411-477 | Joining needs membership and then lists the user |
| `ChatGateway.Server.HandleLeaveConversation` | apps/api-nest/src/interface/chat/chat.gateway.ts:586-604 | Leaving unlists the user from the room |
| `ChatGateway.Server.HandleGlobalPresence` | apps/api-nest/src/interface/chat/chat.gateway.ts:317-324 | A peer's set replaces the one remembered for it, stamped now, and is announced |
| `ChatGateway.Server.Heartbeat` | apps/api-nest/src/interface/chat/chat.gateway.ts:143-146 | Publishes the local set and announces what has expired |
| `OpenConversation.PairKeepsAConversation` | packages/application/src/chat/usecases/OpenPrivateConversationUseCase.ts:49-75 | In every interleaving, dying calls included: once some private conversation holds both users, every later state has one |
| `OpenConversation.NoTwoRemainIff` | packages/application/src/chat/usecases/OpenPrivateConversationUseCase.ts:61-75 | When all calls have finished a pair has no two conversations exactly when none became complete after a younger one had been settled |
| `OpenConversation.ExactlyOneRemains` | packages/application/src/chat/usecases/OpenPrivateConversationUseCase.ts:49-75 | If conversations become complete in creation order, exactly one remains at the end and every caller was given it |
| `OpenConversation.TwoRemain` | packages/application/src/chat/usecases/OpenPrivateConversationUseCase.ts:49-75 | A concrete interleaving that leaves two conversations |
| `OpenConversation.SecondLookupKeepsIff` | packages/application/src/chat/usecases/OpenPrivateConversationUseCase.ts:61-75 | A call keeps its conversation exactly when none that was ever complete for its pair is older |
| `OpenConversation.SurvivorsAreOriginalOrKept` | packages/application/src/chat/usecases/OpenPrivateConversationUseCase.ts:49-75 | At the end the conversations of a pair are those there at the start and those reported as created |
| `OpenConversation.FirstIsPresent` | packages/application/src/chat/usecases/OpenPrivateConversationUseCase.ts:70-73 | The oldest conversation ever complete for a pair is never deleted and is what the lookup finds |
| `OpenConversation.SecondLookup` | packages/application/src/chat/usecases/OpenPrivateConversationUseCase.ts:61-73 | The second lookup finds the call's own conversation or an older one, never nothing |
| `OpenConversation.EveryRunKeepsInv` | packages/application/src/chat/usecases/OpenPrivateConversationUseCase.ts:49-75 | What each call has made, and what has given way to what, stays consistent in every interleaving |
| `OpenConversation.EveryRunKeepsOrigins` | packages/application/src/chat/usecases/OpenPrivateConversationUseCase.ts:49-75 | Conversations there at the start are never touched, and each new one belongs to the call that made it |
| `OpenConversation.StoppedForGood` | packages/application/src/chat/usecases/OpenPrivateConversationUseCase.ts:49-75 | A call that dies leaves tables and other calls as they are and takes no step any more |
| `OpenConversation.FindsOldest` | packages/infrastructure/typeorm/src/repositories/ConversationRepository.ts:37-58 | The lookup finds nothing exactly when no private conversation holds both, and otherwise an oldest one |
| `OpenPrivateConversation.Repositories.Execute` | packages/application/src/chat/usecases/OpenPrivateConversationUseCase.ts:25-76 | Alone, a call refuses invalid targets and forbidden contacts without a change, reopens the oldest conversation for the requester only, or makes one with exactly the two members; it is a run of the protocol's steps |
| `OpenPrivateConversation.Repositories.Converge` | packages/application/src/chat/usecases/OpenPrivateConversationUseCase.ts:61-75 | After creation the call gives way to an older conversation or keeps its own |
| `OpenPrivateConversation.Repositories.FindPrivate` | packages/infrastructure/typeorm/src/repositories/ConversationRepository.ts:37-58 | The scan finds an oldest private conversation of the two users, if there is one |
| `OpenPrivateConversation.Repositories.AddParticipantIfNotExists` | packages/infrastructure/typeorm/src/repositories/ConversationParticipantRepository.ts:33-60 | Adds a member once |
| `Attachments.ParseUndoesBuildIff` | apps/web-next/src/features/chat/attachments.ts:26-61 | Parsing a built message returns the trimmed text and, for a type that starts with image/, an image by its URL alone, for any other the name, size and URL, exactly when the text has no marker and no three newlines in a row and every URL is non-empty without ) or white space |
| `Attachments.PrintedContent` | apps/web-next/src/features/chat/attachments.ts:28-35 | What is written: the trimmed text, then a line for each file, with the URL alone for a type that starts with image/ and with encoded name, size and URL for any other |
| `Attachments.MatchIff` | apps/web-next/src/features/chat/attachments.ts:26 | A marker is ![image](url) or ![file|...](url) with a non-empty URL without ) or white space and no ] or newline in the meta part, and nothing else |
| `Attachments.ForeignMarker` | apps/web-next/src/features/chat/attachments.ts:43-55 | A file marker written elsewhere gives its decoded name, or the raw one when it cannot be decoded |
| `Attachments.SizeIsDecimal` | apps/web-next/src/features/chat/attachments.ts:54 | A size in decimal digits is that number, and one with any other character is 0 |
| `Attachments.FilesAreAppended` | apps/web-next/src/features/chat/attachments.ts:28-61 | For any text at all, attaching files with such URLs adds exactly those files after whatever the text alone parses to |
| `Attachments.PlainIff` | apps/web-next/src/features/chat/attachments.ts:37-61 | A trimmed text parses to itself exactly when it has no marker and no three newlines in a row |
| `Attachments.Parse` | apps/web-next/src/features/chat/attachments.ts:37-61 | The replacing loop that pushes attachments computes the scan, the collapsing and the trimming |
| `Attachments.MarkerMatches` | apps/web-next/src/features/chat/attachments.ts:26-33 | A printed marker is matched whole, with its own meta part and URL |
| `Attachments.MetaReadsBack` | apps/web-next/src/features/chat/attachments.ts:43-55 | The meta part of a printed marker gives back the name and size it was printed from |
| `Attachments.ScanLines` | apps/web-next/src/features/chat/attachments.ts:40-58 | No marker spans two lines: the lines of a content are scanned one by one |
| `Attachments.ScanFindsMarkers` | apps/web-next/src/features/chat/attachments.ts:40-58 | A scan finds an attachment exactly when some position starts a marker, and otherwise leaves the text alone |
| `Attachments.ScannedUrlsAreGood` | apps/web-next/src/features/chat/attachments.ts:26 | Every parsed URL is non-empty without ) or white space |
| `PercentEncoding.DecodeUndoesEncode` | apps/web-next/src/features/chat/attachments.ts:32-51 | Decoding a URI component undoes encoding it, for every string |
| `PercentEncoding.ScalarIff` | apps/web-next/src/features/chat/attachments.ts:32-51 | The decoder reads a character from exactly the octets the encoder writes for it: no overlong form, surrogate or out-of-range number |
| `PercentEncoding.EncodedIsSafe` | apps/web-next/src/features/chat/attachments.ts:32 | An encoded name contains only unreserved characters and %, so no bar, bracket or newline |
| `PercentEncoding.EscapeIsDecoded` | apps/web-next/src/features/chat/attachments.ts:48 | A percent sign is decoded exactly when it starts the escaped octets of a character, in hex digits of either case, and then to that character |
| `PercentEncoding.UnescapedAre` | apps/web-next/src/features/chat/attachments.ts:32 | Exactly the digits, letters and nine marks are left unescaped |
| `PercentEncoding.FourOctetCharacter` | apps/web-next/src/features/chat/attachments.ts:32 | A character of four octets is written as four upper-case escapes |
| `Text.CollapseChangesIff` | apps/web-next/src/features/chat/attachments.ts:59 | Collapsing changes a text exactly when it has three newlines in a row, and then shortens it |
| `Text.CollapseDropsEnd` | apps/web-next/src/features/chat/attachments.ts:59-60 | Newlines at the end of a text do not outlive collapsing and trimming |
| `Text.TrimIsTrimmed` | apps/web-next/src/features/chat/attachments.ts:60 | Trimming leaves no white space at either end and trimming again changes nothing |
| `Text.SpacesAre` | apps/web-next/src/features/chat/attachments.ts:60 | White space is tab to carriage return and the space separators, by their codes |
| `Text.TrimDropsSpaces` | apps/web-next/src/features/chat/attachments.ts:60 | What trimming takes away is white space at the two ends |
| `Text.RunBecomesTwo` | apps/web-next/src/features/chat/attachments.ts:59 | A run of newlines between other characters becomes one of at most two, and the rest is collapsed apart |
| `Text.DecimalNotation` | apps/web-next/src/features/chat/attachments.ts:32 | A size is written with its digits in order and no leading zero |
| `Text.DecimalRoundTrip` | apps/web-next/src/features/chat/attachments.ts:32 | A size printed in decimal reads back as itself |
| `Unread.CountersAgreeIff` | packages/infrastructure/typeorm/src/repositories/MessageRepository.ts:70-116 | Over any run with an increasing clock the notification and the summary show the same count at every moment exactly when no message missed the user and no unread notification was cleared without reading |
| `Unread.PermanentParticipantAgrees` | packages/infrastructure/typeorm/src/repositories/MessageRepository.ts:70-116 | For a participant who stays, never mutes and clears only by reading, the counters agree after every run |
| `Unread.AgreementIsKeptIff` | packages/application/src/chat/usecases/SendMessageUseCase.ts:21-87 | From agreement each single event keeps the counters equal exactly when it is neither a message that misses the user nor a clearing without reading |
| `Unread.MarkAllCounterexample` | packages/infrastructure/typeorm/src/repositories/NotificationRepository.ts:108-118 | One message and then mark-all-as-read: the notification shows 0 and the summary 1 |
| `Unread.EveryRunKeepsInv` | packages/infrastructure/typeorm/src/repositories/NotificationRepository.ts:120-135 | In any run there is never more than one unread grouped notification for a user and a conversation |
| `Unread.EventCounts` | packages/application/src/chat/usecases/SendMessageUseCase.ts:42-77 | A message adds one to the notification of each user it reaches; whatever clears it leaves 0; nothing else changes the count |
| `Unread.NotifyAllCounts` | packages/application/src/chat/usecases/SendMessageUseCase.ts:42-77 | Each recipient is counted up once, the sender and those who muted never |
| `Unread.NotifyAllRows` | packages/application/src/chat/usecases/SendMessageUseCase.ts:42-77 | After a message each old notification is as it was or counts one more for a recipient reached, and each new one is unread, counts one and carries the key of the conversation |
| `Unread.MessagesAndHidden` | packages/application/src/chat/usecases/SendMessageUseCase.ts:21-32 | Exactly an accepted message is stored, with its content, and unhides its conversation for everybody |
| `Unread.MembersMutedAndRead` | packages/application/src/chat/usecases/UpdateConversationUserStateUseCase.ts:13-31 | Reading times, mutes and members change by their own events and by nothing else |
| `Unread.EventSummary` | packages/infrastructure/typeorm/src/repositories/MessageRepository.ts:79-91 | A message by another user adds one to the summary, reading brings it to 0, and nothing else changes it |
| `UnreadStore.Store.Send` | packages/application/src/chat/usecases/SendMessageUseCase.ts:21-87 | Stores the message with its content, makes the conversation visible again for everybody, notifies in the loop over the participants as specified, and refuses an unknown conversation or sender without a change |
| `UnreadStore.Store.UpdateConversationUserState` | packages/application/src/chat/usecases/UpdateConversationUserStateUseCase.ts:13-31 | Reading sets the marker and marks the first unread grouped notification as read, no other row |
| `UnreadStore.Store.SummarizeForUser` | packages/infrastructure/typeorm/src/repositories/MessageRepository.ts:70-116 | An entry for exactly the ids asked for, with the unread count and the latest message of each |
| `UnreadStore.SummaryIs` | packages/infrastructure/typeorm/src/repositories/MessageRepository.ts:70-116 | The unread count is the number of messages by others since the last reading, and the last content and time are those of a latest message |
| `UnreadStore.Store.UnreadRows` | packages/infrastructure/typeorm/src/repositories/MessageRepository.ts:79-91 | The grouped query has a row exactly for the conversations with something unread |
| `UnreadStore.Store.LastRows` | packages/infrastructure/typeorm/src/repositories/MessageRepository.ts:93-101 | The latest message of each conversation that has one |
| `UnreadStore.LastMessage` | packages/infrastructure/typeorm/src/repositories/MessageRepository.ts:93-101 | A message of the conversation that none of its messages is later than |
| `UnreadStore.Store.FindUnreadByGroupKey` | packages/infrastructure/typeorm/src/repositories/NotificationRepository.ts:120-135 | Finds the unread grouped notification of the user and conversation |
| `UnreadStore.Store.CreateNotification` | packages/infrastructure/typeorm/src/repositories/NotificationRepository.ts:44-66 | Adds an unread notification counting one |
| `UnreadStore.Store.IncrementGrouped` | packages/infrastructure/typeorm/src/repositories/NotificationRepository.ts:167-179 | Counts one notification up |
| `UnreadStore.Store.MarkAsRead` | packages/infrastructure/typeorm/src/repositories/NotificationRepository.ts:96-106 | Marks a notification as read if it is the user's own |
| `UnreadStore.Store.MarkAllAsRead` | packages/infrastructure/typeorm/src/repositories/NotificationRepository.ts:108-118 | Marks exactly the user's notifications, all or those of one group key, as read and returns how many rows differ |
| `UnreadStore.Store.DeleteById` | packages/infrastructure/typeorm/src/repositories/NotificationRepository.ts:83-88 | Deletes the user's own notification, refuses another user's, and does nothing for a missing one |
| `LeastLoaded.GreedyIsOptimal` | packages/application/src/common/pickLeastLoaded.ts:9-18 | After any run of least-loaded choices, for every tie-break, the maximum is max(initial maximum, ceil((initial total + m) / n)) |
| `LeastLoaded.NoRunBeats` | packages/application/src/common/pickLeastLoaded.ts:9-18 | No other way of assigning the same clients has a lower maximum |
| `LeastLoaded.GreedyStaysEven` | packages/application/src/common/pickLeastLoaded.ts:9-18 | Loads that differ by at most one keep doing so |
| `LeastLoaded.OptimalIff` | packages/application/src/common/pickLeastLoaded.ts:9-18 | However advisors were chosen, the maximum is the least possible exactly when each one had fewer clients than that at the moment of the link |
| `AdvisorConcurrency.BalancedIff` | packages/application/src/onboarding/usecases/InitializeClientUseCase.ts:146-154 | In every interleaving of counts and links the maximum is the least possible for the clients linked exactly when each link was under it at that moment |
| `AdvisorConcurrency.OverlapCostsLessThan` | packages/application/src/onboarding/usecases/InitializeClientUseCase.ts:146-154 | With at most c calls between their count and their link at a time, the maximum is less than c above the least possible; c = 1 reaches it |
| `AdvisorConcurrency.RunIsAssignments` | packages/application/src/onboarding/usecases/InitializeClientUseCase.ts:130-163 | In every interleaving the table is the start plus the links made in order, each of a client without an advisor to an active one |
| `AdvisorConcurrency.AnswersAreLinks` | packages/application/src/onboarding/usecases/InitializeClientUseCase.ts:130-163 | In every interleaving each caller is told the advisor whom the client has, then and ever after, and for each client linked since the start exactly one call is told that it linked them |
| `AdvisorConcurrency.AnswerIsCurrent` | packages/application/src/onboarding/usecases/InitializeClientUseCase.ts:130-163 | When a call finishes it is told the link its client has at that moment, or that there is none, and a link found at the start ends it |
| `AdvisorConcurrency.StaleCountsCounterexample` | packages/application/src/onboarding/usecases/InitializeClientUseCase.ts:146-154 | A run in which two calls count before either links gives one advisor both clients, where one each was possible |
| `LeastLoaded.PickLeastLoadedId` | packages/application/src/common/pickLeastLoaded.ts:9-18 | None exactly for no candidates; otherwise a candidate that none is less loaded than, for every random number |
| `LeastLoaded.EveryTieCanWin` | packages/application/src/common/pickLeastLoaded.ts:14-17 | Every least loaded candidate is chosen by some random number in [0, 1) |
| `AdvisorAssignment.Onboarding.AssignAdvisor` | packages/application/src/onboarding/usecases/InitializeClientUseCase.ts:130-163 | A client keeps an advisor they have; a new one is linked to a least loaded one of the active advisors among the first 500 users; a link that fails changes nothing; the answer is the link that stands |
| `AdvisorAssignment.Onboarding.Choose` | packages/application/src/onboarding/usecases/InitializeClientUseCase.ts:137-151 | The advisor chosen is an active one of the first 500 users, none of whom has fewer clients; nobody is chosen exactly when none is active |
| `AdvisorAssignment.Onboarding.CountByAdvisorIds` | packages/infrastructure/typeorm/src/repositories/AdvisorClientRepository.ts:71-86 | Exactly the ids asked for, each with its number of clients, 0 included |
| `AdvisorAssignment.Onboarding.Link` | packages/infrastructure/typeorm/src/repositories/AdvisorClientRepository.ts:36-49 | Links a known, unlinked client to a known, different advisor, and otherwise changes nothing |
| `AdvisorAssignment.Onboarding.FindAdvisorOf` | packages/infrastructure/typeorm/src/repositories/AdvisorClientRepository.ts:63-69 | The advisor of a client, if linked |
| `LoginLockout.FailuresAreBounded` | packages/domain/src/user/User.ts:101-113 | For attempts that run one after another, from any state and without a full login or password change, at most 5 + floor(T / 15 min) passwords are checked and wrong in any closed interval of length T |
| `LoginConcurrency.SeparateAttemptsAreBounded` | packages/application/src/user/usecases/LoginUserUseCase.ts:23-35 | In every interleaving in which no attempt reads the account between the read and the save of another one, from any row and without a full login, the same bound holds, besides attempts that died before saving |
| `LoginOverlap.OverlappingAttemptsAreBounded` | packages/application/src/user/usecases/LoginUserUseCase.ts:23-35 | With at most c attempts between their read and their save at a time, and the run starting with the interval, at most C(c + d, c) - 1 passwords are checked and wrong, d = 5 + floor(T / 15 min), besides attempts that died before saving |
| `LoginOverlap.OverlapBoundIsReached` | packages/application/src/user/usecases/LoginUserUseCase.ts:23-35 | For every c some run with c attempts in flight reaches that number at one instant |
| `LoginOverlap.SixAtOnceCounterexample` | packages/application/src/user/usecases/LoginUserUseCase.ts:23-35 | Six wrong passwords at one instant are all checked, and the row then counts one failure and is not locked |
| `LoginOverlap.SlowSaveUnlocks` | packages/application/src/user/usecases/LoginUserUseCase.ts:23-35 | A slow save takes away a lock that five other failures have set meanwhile |
| `LoginConcurrency.FailuresAreAccountedFor` | packages/application/src/user/usecases/LoginUserUseCase.ts:31-35 | In every run each wrong password is recorded, about to be recorded, or lost with its attempt |
| `LoginOverlap.MostIsChoose` | packages/application/src/user/usecases/LoginUserUseCase.ts:23-35 | The bound for c attempts at a time is the binomial coefficient C(c + d, c) less one |
| `LoginOverlap.MostOfOne` | packages/application/src/user/usecases/LoginUserUseCase.ts:23-35 | For one attempt at a time the bound for c attempts is 5 + floor(T / 15 min) |
| `LoginLockout.BoundIsReached` | packages/domain/src/user/User.ts:101-113 | Someone who waits for each lock to end reaches that bound |
| `LoginUser.UseCase.Execute` | packages/application/src/user/usecases/LoginUserUseCase.ts:18-56 | A login succeeds exactly for a known account that is not locked, with a matching password, a verified e-mail and, where enabled, a given and matching code for a configured secret; it then forgets failures and lock, a wrong password counts one more and locks from the fifth, and nothing else changes any account |
| `LoginUser.User.RecordFailure` | packages/domain/src/user/User.ts:105-113 | Counts a failure and sets the lock from the fifth on |
| `LoginUser.User.MarkLoggedIn` | packages/domain/src/user/User.ts:127-133 | A full login forgets the failures and the lock |
| `LoginUser.User.SetPassword` | packages/domain/src/user/User.ts:139-144 | A new password forgets the failures and the lock |
| `LoginLockout.LockedIff` | packages/domain/src/user/User.ts:101-144 | A fifth failure locks for exactly fifteen minutes, an earlier one changes no lock, and a full login or a new password unlocks |
| `LoginLockout.OutcomeIff` | packages/application/src/user/usecases/LoginUserUseCase.ts:24-51 | A login succeeds exactly when everything is right, and each refusal is given exactly for its own reason, in the order of the checks |
| `LoginLockout.LoginEffect` | packages/domain/src/user/User.ts:105-133 | Column by column: a full login clears failures and lock, a wrong password counts one more and locks for 900 000 ms from the fifth on, any other outcome changes nothing |
| `LoginConcurrency.LoggedInWasRight` | packages/application/src/user/usecases/LoginUserUseCase.ts:23-56 | Whatever overlaps, a call that has logged in gave a matching password, and a matching code where asked for, on the unlocked and verified row as it stood when the call read it |
| `RateLimiter.MinuteAdmitsAtMostTwenty` | apps/api-nest/src/interface/auth/auth.controller.ts:45-58 | For every request sequence to one instance of the API, on a clock that never goes back, at most twenty requests of an address pass in any closed 60 s |
| `RateLimiter.WindowAdmitsAtMostTen` | apps/api-nest/src/interface/auth/auth.controller.ts:45-58 | Each window of one instance admits at most ten |
| `RateLimiter.FirstTenPass` | apps/api-nest/src/interface/auth/auth.controller.ts:45-58 | A window is open for 60 seconds, and of the requests in it, refused ones included, exactly the first ten pass |
| `RateLimiter.EveryAddressIsLimited` | apps/api-nest/src/interface/auth/auth.controller.ts:36-58 | On one instance the bound holds for every address whatever the others send |
| `RateLimiter.TwentyIsReached` | apps/api-nest/src/interface/auth/auth.controller.ts:45-58 | Twenty in 60 s can be reached on one instance |
| `RateLimiter.Limiter.Enforce` | apps/api-nest/src/interface/auth/auth.controller.ts:45-58 | Admits exactly as the address's own history says; a refusal's wait is the shortest in whole seconds after which a window opens |
| `BanRequests.EveryRunKeepsInv` | apps/api-nest/src/interface/users-management/ban-requests.service.ts:224-272 | In every interleaving a request is pending exactly when its processed fields are empty, compensation included, and at most one decision holds it |
| `BanRequests.AtMostOneSucceeds` | apps/api-nest/src/interface/users-management/ban-requests.service.ts:235-252 | At most one decision on a request ever succeeds |
| `BanRequests.SuccessIsFinal` | apps/api-nest/src/interface/users-management/ban-requests.service.ts:235-252 | Once a decision has succeeded its request never changes again and says what was decided |
| `BanRequests.AcceptedSuccessBanned` | apps/api-nest/src/interface/users-management/ban-requests.service.ts:254-262 | An accepted success means that the ban step ran, and the client is banned as long as nobody lifts the ban |
| `BanRequests.AcceptedIsUnappliedIff` | apps/api-nest/src/interface/users-management/ban-requests.service.ts:254-272 | At rest, the client of an accepted request is not banned exactly when they were not at the start and every accepting decision on any request about them never claimed it, or stopped in the ban step or with that step failed |
| `BanRequests.BannedUsersIff` | apps/api-nest/src/interface/users-management/ban-requests.service.ts:254-262 | In every state the users banned are those of the start and the clients of the decisions whose ban step has run |
| `BanRequests.DeathCounterexample` | apps/api-nest/src/interface/users-management/ban-requests.service.ts:235-262 | A decision that dies right after its claim leaves the request accepted and the client not banned |
| `BanRequests.CompensationKeepsBan` | apps/api-nest/src/interface/users-management/ban-requests.service.ts:263-271 | When only the disconnection fails, the request is pending again but the client stays banned |
| `BanRequests.UndisturbedDecision` | apps/api-nest/src/interface/users-management/ban-requests.service.ts:224-318 | After any run, a decision taken without interruption ends with success or the error of its own condition, leaves the request claimed, given back or untouched, and bans the client exactly when the ban went through |
| `BanRequests.StepBansIff` | apps/api-nest/src/interface/users-management/ban-requests.service.ts:254-272 | A step bans a client exactly when it is the ban and it goes through, and what does not go through is compensated |
| `BanRequestsService.Service.Decide` | apps/api-nest/src/interface/users-management/ban-requests.service.ts:224-318 | Alone, each answer exactly on its own condition; a success writes status, time, director and trimmed comment, a failed ban or disconnection restores the request, a refusal changes nothing |
| `BanRequestsService.Service.ClaimRow` | apps/api-nest/src/interface/users-management/ban-requests.service.ts:235-245 | Claims exactly a pending request of the assigned director, and writes the decision, the time, the director and the comment |
| `BanRequestsService.ReleaseUndoesClaim` | apps/api-nest/src/interface/users-management/ban-requests.service.ts:265-269 | Giving a claimed request back restores it |

## Left out

- React components, PDF drawing, controllers' routing, guards, validation decorators and dependency injection.
- IEEE-754 rounding: amounts and averages are computed over exact integers and reals, with the source's epsilon kept.
- Overflow of `numeric(15,2)` columns and of the doubles that hold them.
- The ids and timestamps of ledger rows; a row's creation time is its transaction's start, its place here is its commit.
- Limit and stop orders, which the source only records, and the listing endpoints of the trading controller.
- The account's stored total value is not refreshed by transfers in the source; the model refreshes it only with orders too.
- Orders do not write investment ledger rows in the source, so the rows of an investment account alone replay to its cash only while it places no orders; with orders, what they moved is added.
- The comparison of sort keys is by character, which agrees with the source's UTF-16 comparison on ids of ASCII letters, digits and dashes.
- Presence inside one conversation across instances, typing notices, message relay, the reconnecting listener and last-seen times.
- Group conversations and the removal of participants or private conversations by anything but the opening protocol.
- Who may contact whom is a given set; how the directory computes it is not modelled.
- Attachments.ParseSize: a size that is not written in decimal digits counts as 0, where the source also accepts the other number forms of its language.
- The preview line of a conversation and the labels of attachments.
- Titles and texts of notifications, and marking as read by a target other than a conversation.
- Handlers of messages, read states and notifications run one after another in the unread model; a request to the limiter is one step, as it is in the source.
- Other writers of an account's row (a ban, a profile change, a new password) while a login is under way, and logins that complete among those counted.
- ChatGateway.Server.HandleJoinConversation: takes the membership check and the join as one step on a connected socket, because a join that ends after its socket closed would list a user whom nothing removes.
- BanRequests.AcceptedSuccessBanned: does not model lifting a ban, nor whole-row saves of a user that overlap the ban.
- Limits across the instances of the API: each one counts the login requests it receives itself.
- The trimming and upper-casing of an order's symbol.
- How a request's address is read from its headers; an address is given.
- Bans, sessions, tokens and e-mail verification beyond the order of checks in a login.
- Creation of ban requests beyond inserting a pending row, its message and its conversation; the advisory lock covers only the choice of a director.
- The account, card and name steps of onboarding, reassigning an advisor, and every role and format check settled by one branch.
