/**
 * What every interleaving of transfers and market orders keeps: the committed tables are those of a serial
 * run, money is accounted for, keys complete once, and nobody waits for ever.
 */
module TransferConcurrency {

  import opened Wrappers
  import opened PartyOrder
  import opened TradingMath
  import opened Sums
  import opened Ledger
  import opened Sequences
  import opened TransferSteps

  lemma InitialInv(s: State)
    requires Initial(s)
    ensures Inv(s.db, s)
  {
    assert forall id, p :: !Holds(s, id, p);
    assert forall id, k :: !Pends(s, id, k);
  }

  /** The invariant holds after every interleaving. */
  lemma {:induction false} EveryRunKeepsInv(start: State, actions: seq<Action>)
    requires Initial(start) && ValidRun(start, actions)
    ensures Inv(start.db, After(start, actions))
  {
    if |actions| == 0 {
      InitialInv(start);
    } else {
      EveryRunKeepsInv(start, Front(actions));
      ActionKeepsInv(start.db, After(start, Front(actions)), Last(actions));
    }
  }

  // --- Serialisability -----------------------------------------------------------------------

  /**
   * Whatever the interleaving, the committed tables are those of the finished commands run one by
   * one in the order they finished, and each caller got the outcome its command has in that run.
   */
  lemma EveryRunIsSerial(start: State, actions: seq<Action>)
    requires Initial(start) && ValidRun(start, actions)
    ensures var s := After(start, actions);
            Faithful(start.db, s.history) && s.db == Replay(start.db, s.history) && RecordFits(s)
  {
    EveryRunKeepsInv(start, actions);
  }

  /** The same tables result when only the commands that succeeded are run. */
  lemma OnlyCommittedCommandsMatter(start: State, actions: seq<Action>)
    requires Initial(start) && ValidRun(start, actions)
    ensures var s := After(start, actions);
            s.db == Replay(start.db, Committed(s.history)) && Faithful(start.db, Committed(s.history))
  {
    EveryRunIsSerial(start, actions);
    FailuresMayBeLeftOut(start.db, After(start, actions).history);
  }

  predicate CompletedKey(tx: Tx, key: string)
  {
    HasKey(tx.command) && KeyOf(tx.command) == key &&
    tx.pc.Done? && tx.pc.result.Some? && tx.pc.result.value.Completed?
  }

  /** In no interleaving do two transfers with one key complete. */
  lemma AtMostOncePerKey(start: State, actions: seq<Action>, key: string, a: TxId, b: TxId)
    requires Initial(start) && ValidRun(start, actions)
    requires var s := After(start, actions);
             a in s.txs && b in s.txs && CompletedKey(s.txs[a], key) && CompletedKey(s.txs[b], key)
    ensures a == b
    ensures key !in start.db.keys && key in After(start, actions).db.keys
  {
    EveryRunIsSerial(start, actions);
    var s := After(start, actions);
    var i :| 0 <= i < |s.finished| && s.finished[i] == a;
    var j :| 0 <= j < |s.finished| && s.finished[j] == b;
    assert CompletedWith(s.history[i], key) && CompletedWith(s.history[j], key);
    AtMostOneCompletes(start.db, s.history, key, i, j);
    KeyTakenIff(start.db, s.history, key);
  }

  /** In every reachable state the committed money and holdings are accounted for. */
  lemma MoneyInEveryRun(start: State, actions: seq<Action>)
    requires Initial(start) && ValidRun(start, actions)
    requires NonNegative(start.db)
    requires forall i :: 0 <= i < |actions| && actions[i].Begin? ==> PositiveAmount(actions[i].command)
    ensures var s := After(start, actions);
            Total(s.db.balances) == Total(start.db.balances) - Spent(s.history) + Earned(s.history) &&
            NonNegative(s.db) &&
            forall holding :: Held(PositionAt(s.db, holding)) ==
              Held(PositionAt(start.db, holding)) + Positions.Bought(TradesOf(s.history, holding))
                                                  - Positions.Sold(TradesOf(s.history, holding))
  {
    EveryRunIsSerial(start, actions);
    var s := After(start, actions);
    MoneyIsConserved(start.db, s.history);
    AmountsPositive(start, actions);
    NoBalanceGoesNegative(start.db, s.history);
    forall holding {
      HoldingsAreBuysMinusSells(start.db, s.history, holding);
    }
  }

  /** In every reachable state each bank account's ledger rows replay to its balance. */
  lemma LedgerInEveryRun(start: State, actions: seq<Action>, id: string)
    requires Initial(start) && ValidRun(start, actions)
    requires forall i :: 0 <= i < |actions| && actions[i].Begin? ==> PositiveAmount(actions[i].command)
    requires Party(Bank, id) in start.db.balances
    ensures LedgerReplaysTo(start.db, After(start, actions).db, Party(Bank, id))
  {
    EveryRunIsSerial(start, actions);
    AmountsPositive(start, actions);
    BankLedgerReplaysToBalance(start.db, After(start, actions).history, id);
  }

  /** In every reachable state an investment account's cash is explained by its ledger rows and its orders. */
  lemma CashInEveryRun(start: State, actions: seq<Action>, id: string)
    requires Initial(start) && ValidRun(start, actions)
    requires forall i :: 0 <= i < |actions| && actions[i].Begin? ==> PositiveAmount(actions[i].command)
    requires Party(Investment, id) in start.db.balances
    ensures var s := After(start, actions);
            CashIsExplained(start.db, s.db, id, OrderFlow(s.history, id)) &&
            ((forall i :: 0 <= i < |s.history| ==> !OrderedOn(s.history[i], id)) ==> CashRuns(start.db, s.db, id))
  {
    EveryRunIsSerial(start, actions);
    AmountsPositive(start, actions);
    CashLedgerExplainsBalance(start.db, After(start, actions).history, id);
  }

  predicate AllPositive(s: State)
  {
    (forall id :: id in s.txs ==> PositiveAmount(s.txs[id].command)) &&
    (forall i :: 0 <= i < |s.history| ==> PositiveAmount(s.history[i].command))
  }

  predicate SameCommands(s: State, after: State)
  {
    after.txs.Keys == s.txs.Keys && forall id :: id in s.txs ==> after.txs[id].command == s.txs[id].command
  }

  lemma StepKeepsCommands(s: State, id: TxId)
    requires Enabled(s, id)
    ensures SameCommands(s, Step(s, id))
  {
    var after := Step(s, id);
    assert OthersSame(s, after, id);
    assert after.txs[id].command == s.txs[id].command;
  }

  /** A step records at most one outcome, its own. */
  lemma StepRecordsItsCommand(s: State, id: TxId)
    requires Enabled(s, id)
    ensures Step(s, id).history == s.history ||
            exists outcome :: Step(s, id).history == s.history + [Event(s.txs[id].command, outcome)]
  {
  }

  lemma ActionKeepsPositive(s: State, action: Action)
    requires AllPositive(s) && Allowed(s, action)
    requires action.Begin? ==> PositiveAmount(action.command)
    ensures AllPositive(Do(s, action))
  {
    if action.Advance? {
      StepKeepsCommands(s, action.id);
      StepRecordsItsCommand(s, action.id);
    }
  }

  lemma {:induction false} AmountsPositive(start: State, actions: seq<Action>)
    requires Initial(start) && ValidRun(start, actions)
    requires forall i :: 0 <= i < |actions| && actions[i].Begin? ==> PositiveAmount(actions[i].command)
    ensures AllPositive(After(start, actions))
  {
    if |actions| > 0 {
      AmountsPositive(start, Front(actions));
      assert Last(actions) == actions[|actions| - 1];
      ActionKeepsPositive(After(start, Front(actions)), Last(actions));
    }
  }

  // --- No deadlock ---------------------------------------------------------------------------

  /** The row a transaction is about to lock. */
  function Awaited(tx: Tx): Party
    requires tx.pc.Lock? && PcFits(tx)
  {
    LockOrder(tx.command)[tx.pc.index]
  }

  /** A transaction that cannot step and is past its key waits for a row that another one holds. */
  lemma StuckWaitsForRow(s: State, id: TxId)
    requires TxsFit(s) && id in s.txs && Unfinished(s.txs[id]) && !Enabled(s, id) && !s.txs[id].pc.Start?
    ensures s.txs[id].pc.Lock? && Awaited(s.txs[id]) in s.locks && s.locks[Awaited(s.txs[id])] != id
  {
  }

  /** A stuck transaction that holds a row waits for a later one. */
  lemma WaitsInOrder(s: State, id: TxId, held: Party)
    requires LocksFit(s) && TxsFit(s) && id in s.txs && s.txs[id].pc.Lock?
    requires Holds(s, id, held) && Awaited(s.txs[id]) in s.locks && s.locks[Awaited(s.txs[id])] != id
    ensures Before(held, Awaited(s.txs[id]))
  {
    var tx := s.txs[id];
    assert held in Claimed(tx);
    assert tx.pc.index == 1 && held == LockOrder(tx.command)[0];
    CrossedTransfersLockAlike(tx.command.source, tx.command.destination);
    BeforeIsStrictTotalOrder(held, Awaited(tx), held);
  }

  predicate Waiting(s: State, id: TxId)
  {
    id in s.txs && s.txs[id].pc.Lock? && PcFits(s.txs[id]) &&
    Awaited(s.txs[id]) in s.locks && s.locks[Awaited(s.txs[id])] != id
  }

  /** If someone is unfinished, either someone can step or someone waits for a row. */
  lemma RunnerOrWaiter(s: State, id: TxId) returns (other: TxId)
    requires PendingFits(s) && TxsFit(s) && id in s.txs && Unfinished(s.txs[id])
    ensures Enabled(s, other) || Waiting(s, other)
  {
    other := id;
    if s.txs[id].pc.Start? && !Enabled(s, id) {
      other := s.pending[KeyOf(s.txs[id].command)];
      assert Pends(s, other, KeyOf(s.txs[id].command));
    }
    if !Enabled(s, other) {
      StuckWaitsForRow(s, other);
    }
  }

  /** In every state with an unfinished transaction some transaction can step. */
  lemma SomeoneCanStep(s: State, id: TxId) returns (runner: TxId)
    requires LocksFit(s) && PendingFits(s) && TxsFit(s)
    requires id in s.txs && Unfinished(s.txs[id])
    ensures Enabled(s, runner)
  {
    runner := RunnerOrWaiter(s, id);
    if !Enabled(s, runner) {
      var rows := set t | t in s.txs && Waiting(s, t) :: Awaited(s.txs[t]);
      assert Awaited(s.txs[runner]) in rows;
      var row := LastParty(rows);
      runner := s.locks[row];
      assert Holds(s, runner, row);
      if !Enabled(s, runner) {
        StuckWaitsForRow(s, runner);
        assert Awaited(s.txs[runner]) in rows;
        WaitsInOrder(s, runner, row);
        assert false;
      }
    }
  }

  /** No interleaving of transfers and orders, crossed ones included, ever deadlocks. */
  lemma NoRunDeadlocks(start: State, actions: seq<Action>)
    requires Initial(start) && ValidRun(start, actions)
    requires exists id :: id in After(start, actions).txs && Unfinished(After(start, actions).txs[id])
    ensures exists id :: Allowed(After(start, actions), Advance(id))
  {
    EveryRunKeepsInv(start, actions);
    var unfinished :| unfinished in After(start, actions).txs && Unfinished(After(start, actions).txs[unfinished]);
    var id := SomeoneCanStep(After(start, actions), unfinished);
    assert Allowed(After(start, actions), Advance(id));
  }

  // --- Every run can be completed -------------------------------------------------------------

  /** How many steps a transaction has left at most. */
  function StepsLeft(tx: Tx): nat
  {
    match tx.pc
    case Start => 10
    case Lock(i) => if i < 3 then 9 - i else 6
    case Debit => 5
    case Execute => 5
    case LogOut(_) => 4
    case Credit(_) => 3
    case LogIn(_, _) => 2
    case Commit(_) => 1
    case Rollback(_) => 1
    case Done(_) => 0
  }

  function Remaining(s: State): map<TxId, int>
  {
    map id | id in s.txs :: StepsLeft(s.txs[id])
  }

  lemma BodyLeavesFewer(db: Db, tx: Tx)
    requires InBody(tx) && PcFits(tx)
    ensures StepsLeft(Body(db, tx)) < StepsLeft(tx)
  {
  }

  lemma StepLeavesFewer(s: State, id: TxId)
    requires Enabled(s, id)
    ensures StepsLeft(Step(s, id).txs[id]) < StepsLeft(s.txs[id])
  {
    if InBody(s.txs[id]) {
      BodyLeavesFewer(s.db, s.txs[id]);
      assert Step(s, id).txs[id] == Body(s.db, s.txs[id]);
    }
  }

  lemma StepLeavesOthers(s: State, id: TxId)
    requires Enabled(s, id)
    ensures OthersSame(s, Step(s, id), id)
  {
  }

  lemma StepMakesProgress(s: State, id: TxId)
    requires Enabled(s, id)
    ensures Total(Remaining(Step(s, id))) < Total(Remaining(s))
  {
    var after := Step(s, id);
    StepLeavesFewer(s, id);
    StepLeavesOthers(s, id);
    assert Remaining(after) == Remaining(s)[id := StepsLeft(after.txs[id])];
    TotalUpdate(Remaining(s), id, StepsLeft(after.txs[id]));
  }

  predicate AllFinished(s: State)
  {
    forall id :: id in s.txs ==> !Unfinished(s.txs[id])
  }

  lemma RunAdvances(start: State, actions: seq<Action>) returns (id: TxId)
    requires Initial(start) && ValidRun(start, actions) && !AllFinished(After(start, actions))
    ensures ValidRun(start, actions + [Advance(id)])
    ensures 0 <= Total(Remaining(After(start, actions + [Advance(id)]))) < Total(Remaining(After(start, actions)))
  {
    var s := After(start, actions);
    NoRunDeadlocks(start, actions);
    id :| Allowed(s, Advance(id));
    assert Front(actions + [Advance(id)]) == actions;
    StepMakesProgress(s, id);
    TotalNonNegative(Remaining(Step(s, id)));
  }

  /** A longer run that begins no transaction and loses none, and leaves none under way. */
  ghost predicate Finishes(start: State, actions: seq<Action>, longer: seq<Action>)
  {
    actions <= longer && (forall i :: |actions| <= i < |longer| ==> longer[i].Advance?) &&
    ValidRun(start, longer) && AllFinished(After(start, longer))
  }

  /** From every reachable state the transactions under way can all finish. */
  lemma EveryRunCanFinish(start: State, actions: seq<Action>)
    requires Initial(start) && ValidRun(start, actions)
    ensures exists longer :: Finishes(start, actions, longer)
  {
    TotalNonNegative(Remaining(After(start, actions)));
    var longer := FinishWithin(start, actions, Total(Remaining(After(start, actions))));
  }

  lemma {:induction false} FinishWithin(start: State, actions: seq<Action>, bound: nat)
    returns (longer: seq<Action>)
    requires Initial(start) && ValidRun(start, actions)
    requires Total(Remaining(After(start, actions))) <= bound
    ensures Finishes(start, actions, longer)
    decreases bound
  {
    if AllFinished(After(start, actions)) {
      longer := actions;
    } else {
      var id := RunAdvances(start, actions);
      longer := FinishWithin(start, actions + [Advance(id)], bound - 1);
    }
  }

  // --- A command that nobody disturbs -----------------------------------------------------------

  /** Transaction `id` has run its command since `before`, and nobody else has done anything. */
  ghost predicate RunsAlone(before: State, s: State, id: TxId, command: Command)
  {
    id !in before.txs && s.txs.Keys == before.txs.Keys + {id} &&
    (forall j :: j in before.txs ==> s.txs[j] == before.txs[j]) && s.txs[id].command == command &&
    if Unfinished(s.txs[id]) then s.history == before.history
    else s.txs[id].pc.result.Some? && s.history == before.history + [Event(command, s.txs[id].pc.result.value)]
  }

  /** A step records an outcome exactly when it is its transaction's last one. */
  lemma StepRecordsIff(s: State, id: TxId)
    requires Enabled(s, id)
    ensures var after := Step(s, id);
            if Unfinished(after.txs[id]) then after.history == s.history
            else after.txs[id].pc.result.Some? &&
                 after.history == s.history + [Event(s.txs[id].command, after.txs[id].pc.result.value)]
  {
    hide Apply, MarketExecution, NewEntry, AfterTrade;
  }

  lemma AdvanceIsAlone(before: State, s: State, id: TxId, command: Command, j: TxId)
    requires AllFinished(before) && RunsAlone(before, s, id, command) && Enabled(s, j)
    ensures RunsAlone(before, Step(s, j), id, command)
  {
    hide Step;
    assert j == id;
    StepLeavesOthers(s, id);
    StepKeepsCommands(s, id);
    StepRecordsIff(s, id);
  }

  lemma {:induction false} AdvancesAreAlone(start: State, actions: seq<Action>, before: State, id: TxId,
                                            command: Command, longer: seq<Action>)
    requires ValidRun(start, actions) && AllFinished(before) && RunsAlone(before, After(start, actions), id, command)
    requires actions <= longer && ValidRun(start, longer)
    requires forall i :: |actions| <= i < |longer| ==> longer[i].Advance?
    ensures RunsAlone(before, After(start, longer), id, command)
    decreases |longer|
  {
    hide RunsAlone, Do;
    if |longer| == |actions| {
      assert longer == actions;
    } else {
      AdvancesAreAlone(start, actions, before, id, command, Front(longer));
      assert Last(longer) == longer[|longer| - 1];
      var s := After(start, Front(longer));
      assert Do(s, Last(longer)) == Step(s, Last(longer).id) by { AdvanceIsStep(s, Last(longer).id); }
      AdvanceIsAlone(before, s, id, command, Last(longer).id);
    }
  }

  lemma AdvanceIsStep(s: State, id: TxId)
    requires Enabled(s, id)
    ensures Allowed(s, Advance(id)) && Do(s, Advance(id)) == Step(s, id)
  {
  }

  /**
   * After any run that left nothing under way, a command begun and run by its own steps comes to an end, and then
   * has done to the tables, and been answered, exactly what its serial meaning says.
   */
  lemma UndisturbedCommand(start: State, actions: seq<Action>, id: TxId, command: Command)
    returns (longer: seq<Action>)
    requires Initial(start) && ValidRun(start, actions)
    requires AllFinished(After(start, actions)) && id !in After(start, actions).txs
    ensures Finishes(start, actions + [Begin(command, id)], longer)
    ensures var s, after := After(start, actions), After(start, longer);
            after.db == Apply(s.db, command).0 && id in after.txs &&
            after.txs[id].pc == Done(Some(Apply(s.db, command).1)) &&
            forall j :: j in s.txs ==> j in after.txs && after.txs[j] == s.txs[j]
  {
    var s, begun := After(start, actions), actions + [Begin(command, id)];
    assert Front(begun) == actions;
    hide Do, Step, Apply;
    assert RunsAlone(s, After(start, begun), id, command) by { BeginIsAlone(s, id, command); }
    EveryRunCanFinish(start, begun);
    longer :| Finishes(start, begun, longer);
    AdvancesAreAlone(start, begun, s, id, command, longer);
    EveryRunIsSerial(start, actions);
    EveryRunIsSerial(start, longer);
    var after := After(start, longer);
    assert !Unfinished(after.txs[id]);
    ReplayAppend(start.db, s.history, Event(command, after.txs[id].pc.result.value));
  }

  lemma BeginIsAlone(s: State, id: TxId, command: Command)
    requires id !in s.txs
    ensures RunsAlone(s, Do(s, Begin(command, id)), id, command)
  {
  }
}
