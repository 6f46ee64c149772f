/**
 * Any number of transfers and market orders running at once, each in small steps: claim the
 * idempotency key, lock the rows in sorted order, debit, ledger row, credit, ledger row, commit or
 * roll back. Uncommitted writes are private to their transaction, row locks are held to the end, and
 * an uncommitted key makes other inserts of that key wait.
 */
module TransferSteps {

  import opened Wrappers
  import opened PartyOrder
  import opened TradingMath
  import opened Ledger
  import opened Sequences

  type TxId = nat

  datatype Pc =
    | Start
    | Lock(index: nat)
    | Debit
    | LogOut(left: int)
    | Credit(left: int)
    | LogIn(left: int, received: int)
    | Execute
    | Commit(outcome: Outcome)
    | Rollback(outcome: Outcome)
    | Done(result: Option<Outcome>)

  datatype PositionWrite = Unwritten | Written(holding: Holding, position: Option<Position>)

  datatype Tx = Tx(command: Command, pc: Pc, writes: map<Party, int>, rows: seq<Entry>, position: PositionWrite)

  /** `history` and `finished` record the outcomes, and whose they are, in the order of the final steps. */
  datatype State = State(
    db: Db,
    locks: map<Party, TxId>,
    pending: map<string, TxId>,
    txs: map<TxId, Tx>,
    history: seq<Event>,
    finished: seq<TxId>)

  datatype Action =
    | Begin(command: Command, id: TxId)
    | Advance(id: TxId)
    | Lose(id: TxId)  // the connection fails and the server rolls the transaction back

  function LockOrder(command: Command): seq<Party>
  {
    if command.Transfer? then Sorted(command.source, command.destination) else [CashRow(command)]
  }

  /** The value a transaction sees: its own write, else the committed one. */
  function Read(db: Db, tx: Tx, p: Party): int
    requires p in db.balances
  {
    if p in tx.writes then tx.writes[p] else db.balances[p]
  }

  predicate Unfinished(tx: Tx)
  {
    !tx.pc.Done?
  }

  /** A step must wait only for a pending key or for a row locked by another transaction. */
  predicate Enabled(s: State, id: TxId)
  {
    id in s.txs &&
    var tx := s.txs[id];
    match tx.pc
    case Start => HasKey(tx.command) ==> KeyOf(tx.command) !in s.pending
    case Lock(i) =>
      i < |LockOrder(tx.command)| &&
      (LockOrder(tx.command)[i] in s.db.balances && LockOrder(tx.command)[i] in s.locks ==>
         s.locks[LockOrder(tx.command)[i]] == id)
    case Debit => tx.command.Transfer?
    case LogOut(_) => tx.command.Transfer?
    case Credit(_) => tx.command.Transfer?
    case LogIn(_, _) => tx.command.Transfer?
    case Execute => tx.command.Order?
    case Commit(_) => true
    case Rollback(_) => true
    case Done(_) => false
  }

  function WithTx(s: State, id: TxId, tx: Tx): State
  {
    s.(txs := s.txs[id := tx])
  }

  function ClaimKey(s: State, id: TxId): State
    requires id in s.txs
  {
    var tx := s.txs[id];
    if HasKey(tx.command) && KeyOf(tx.command) in s.db.keys then
      WithTx(s, id, tx.(pc := Commit(Duplicate)))
    else if HasKey(tx.command) then
      WithTx(s, id, tx.(pc := Lock(0))).(pending := s.pending[KeyOf(tx.command) := id])
    else
      WithTx(s, id, tx.(pc := Lock(0)))
  }

  /** `SELECT … FOR UPDATE` locks nothing when the row does not exist. */
  function LockRow(s: State, id: TxId): State
    requires id in s.txs && s.txs[id].pc.Lock? && s.txs[id].pc.index < |LockOrder(s.txs[id].command)|
  {
    var tx := s.txs[id];
    var order, i := LockOrder(tx.command), tx.pc.index;
    var next := if i + 1 < |order| then Lock(i + 1) else if tx.command.Transfer? then Debit else Execute;
    WithTx(s, id, tx.(pc := next)).(locks := if order[i] in s.db.balances then s.locks[order[i] := id] else s.locks)
  }

  function DebitSource(db: Db, tx: Tx): Tx
    requires tx.command.Transfer?
  {
    var source, amount := tx.command.source, tx.command.amount;
    if source !in db.balances || Read(db, tx, source) < amount then tx.(pc := Rollback(InsufficientFunds))
    else
      var left := Read(db, tx, source) - amount;
      tx.(pc := LogOut(left), writes := tx.writes[source := left])
  }

  function CreditDestination(db: Db, tx: Tx): Tx
    requires tx.command.Transfer? && tx.pc.Credit?
  {
    var destination := tx.command.destination;
    if destination !in db.balances then tx.(pc := Rollback(DestinationNotFound))
    else
      var received := Read(db, tx, destination) + tx.command.amount;
      tx.(pc := LogIn(tx.pc.left, received), writes := tx.writes[destination := received])
  }

  function ExecuteOrder(db: Db, tx: Tx): Tx
    requires tx.command.Order?
  {
    var order := tx.command;
    var position := PositionAt(db, HoldingOf(order));
    if CashRow(order) !in db.balances then tx.(pc := Rollback(AccountNotFound))
    else if order.account !in db.active then tx.(pc := Rollback(AccountInactive))
    else
      var outcome := MarketExecution(order.side, order.quantity, order.price,
                                     Read(db, tx, CashRow(order)), Held(position));
      if !outcome.Executed? then tx.(pc := Rollback(outcome))
      else tx.(pc := Commit(outcome),
               writes := tx.writes[CashRow(order) := outcome.cash],
               position := Written(HoldingOf(order), AfterTrade(position, TradeOf(order))))
  }

  /** The body of the transaction, once every lock is held. */
  function Body(db: Db, tx: Tx): Tx
    requires tx.pc.Debit? || tx.pc.LogOut? || tx.pc.Credit? || tx.pc.LogIn? ==> tx.command.Transfer?
    requires tx.pc.Execute? ==> tx.command.Order?
  {
    match tx.pc
    case Debit => DebitSource(db, tx)
    case LogOut(left) =>
      tx.(pc := Credit(left),
          rows := tx.rows + [NewEntry(tx.command.source, Out, tx.command.amount, left, tx.command.description)])
    case Credit(_) => CreditDestination(db, tx)
    case LogIn(left, received) =>
      tx.(pc := Commit(Completed(left, received)),
          rows := tx.rows + [NewEntry(tx.command.destination, In, tx.command.amount, received, tx.command.description)])
    case Execute => ExecuteOrder(db, tx)
    case _ => tx
  }

  /** The tables once the writes of `tx` and the keys it claimed become visible. */
  function Merge(db: Db, tx: Tx, keys: set<string>): Db
  {
    db.(balances := db.balances + tx.writes,
        ledger := db.ledger + tx.rows,
        keys := db.keys + keys,
        positions := if tx.position.Written?
                     then PutPosition(db.positions, tx.position.holding, tx.position.position)
                     else db.positions)
  }

  function ReleaseAll(s: State, id: TxId): State
  {
    s.(locks := map p | p in s.locks && s.locks[p] != id :: s.locks[p],
       pending := map k | k in s.pending && s.pending[k] != id :: s.pending[k])
  }

  function ClaimedKeys(s: State, id: TxId): set<string>
  {
    set k | k in s.pending && s.pending[k] == id
  }

  function Finish(s: State, id: TxId, outcome: Outcome, db: Db): State
    requires id in s.txs
  {
    WithTx(ReleaseAll(s, id), id, s.txs[id].(pc := Done(Some(outcome))))
      .(db := db, history := s.history + [Event(s.txs[id].command, outcome)], finished := s.finished + [id])
  }

  function Step(s: State, id: TxId): State
    requires Enabled(s, id)
  {
    var tx := s.txs[id];
    match tx.pc
    case Start => ClaimKey(s, id)
    case Lock(_) => LockRow(s, id)
    case Commit(outcome) => Finish(s, id, outcome, Merge(s.db, tx, ClaimedKeys(s, id)))
    case Rollback(outcome) => Finish(s, id, outcome, s.db)
    case _ => WithTx(s, id, Body(s.db, tx))
  }

  predicate Allowed(s: State, action: Action)
  {
    match action
    case Begin(command, id) => id !in s.txs
    case Advance(id) => Enabled(s, id)
    case Lose(id) => id in s.txs && Unfinished(s.txs[id])
  }

  function Do(s: State, action: Action): State
    requires Allowed(s, action)
  {
    match action
    case Begin(command, id) => WithTx(s, id, Tx(command, Start, map[], [], Unwritten))
    case Advance(id) => Step(s, id)
    case Lose(id) => WithTx(ReleaseAll(s, id), id, s.txs[id].(pc := Done(None)))
  }

  predicate Initial(s: State)
  {
    s.locks == map[] && s.pending == map[] && s.txs == map[] && s.history == [] && s.finished == []
  }

  /** Every interleaving, of any length. */
  predicate ValidRun(start: State, actions: seq<Action>)
    decreases |actions|, 0
  {
    |actions| == 0 ||
    (ValidRun(start, Front(actions)) && Allowed(After(start, Front(actions)), Last(actions)))
  }

  function After(start: State, actions: seq<Action>): State
    requires ValidRun(start, actions)
    decreases |actions|, 1
  {
    if |actions| == 0 then start else Do(After(start, Front(actions)), Last(actions))
  }

  // --- The invariant -----------------------------------------------------------------------

  /** How many rows of its lock order a transaction has dealt with. */
  function HeldCount(tx: Tx): nat
  {
    match tx.pc
    case Start => 0
    case Lock(i) => if i <= |LockOrder(tx.command)| then i else 0
    case Commit(outcome) => if outcome.Duplicate? then 0 else |LockOrder(tx.command)|
    case Done(_) => 0
    case _ => |LockOrder(tx.command)|
  }

  function Claimed(tx: Tx): seq<Party>
  {
    LockOrder(tx.command)[..HeldCount(tx)]
  }

  predicate KeyHeld(tx: Tx)
  {
    HasKey(tx.command) && !tx.pc.Start? && !tx.pc.Done? && tx.pc != Commit(Duplicate)
  }

  predicate PcFits(tx: Tx)
  {
    match tx.pc
    case Lock(i) => i < |LockOrder(tx.command)|
    case Debit => tx.command.Transfer?
    case LogOut(_) => tx.command.Transfer?
    case Credit(_) => tx.command.Transfer?
    case LogIn(_, _) => tx.command.Transfer?
    case Execute => tx.command.Order?
    case _ => true
  }

  predicate Blank(tx: Tx)
  {
    tx.writes == map[] && tx.rows == [] && tx.position == Unwritten
  }

  predicate Debited(db: Db, tx: Tx, left: int)
  {
    tx.command.Transfer? && tx.position == Unwritten &&
    tx.command.source in db.balances && tx.command.amount <= db.balances[tx.command.source] &&
    left == db.balances[tx.command.source] - tx.command.amount
  }

  function OutRow(tx: Tx, left: int): Entry
    requires tx.command.Transfer?
  {
    NewEntry(tx.command.source, Out, tx.command.amount, left, tx.command.description)
  }

  function InRow(tx: Tx, received: int): Entry
    requires tx.command.Transfer?
  {
    NewEntry(tx.command.destination, In, tx.command.amount, received, tx.command.description)
  }

  predicate Credited(db: Db, tx: Tx, left: int, received: int)
  {
    Debited(db, tx, left) && tx.command.destination in db.balances &&
    received == db.balances[tx.command.source := left][tx.command.destination] + tx.command.amount &&
    tx.writes == map[tx.command.source := left][tx.command.destination := received]
  }

  predicate OrderDone(db: Db, tx: Tx, outcome: Outcome)
  {
    tx.command.Order? && tx.rows == [] &&
    outcome.Executed? && outcome == ApplyOrder(db, tx.command).1 &&
    CashRow(tx.command) in db.balances &&
    tx.writes == map[CashRow(tx.command) := outcome.cash] &&
    (var position := PositionAt(db, HoldingOf(tx.command));
     (TradeOf(tx.command).Sell? ==> TradeOf(tx.command).quantity <= Held(position)) &&
     tx.position == Written(HoldingOf(tx.command), AfterTrade(position, TradeOf(tx.command))))
  }

  /** What a transaction has done privately, in terms of the committed tables. */
  predicate LocalFits(db: Db, tx: Tx)
  {
    match tx.pc
    case Start => Blank(tx)
    case Lock(_) => Blank(tx)
    case Debit => Blank(tx)
    case Execute => Blank(tx)
    case LogOut(left) => Debited(db, tx, left) && tx.writes == map[tx.command.source := left] && tx.rows == []
    case Credit(left) =>
      Debited(db, tx, left) && tx.writes == map[tx.command.source := left] && tx.rows == [OutRow(tx, left)]
    case LogIn(left, received) => Credited(db, tx, left, received) && tx.rows == [OutRow(tx, left)]
    case Commit(outcome) =>
      (match outcome
       case Duplicate => Blank(tx) && HasKey(tx.command) && KeyOf(tx.command) in db.keys
       case Completed(left, received) =>
         Credited(db, tx, left, received) && tx.rows == [OutRow(tx, left), InRow(tx, received)]
       case Executed(_, _) => OrderDone(db, tx, outcome)
       case _ => false)
    case Rollback(outcome) => !Succeeded(outcome) && outcome == Apply(db, tx.command).1
    case Done(_) => true
  }

  predicate Holds(s: State, id: TxId, p: Party)
  {
    p in s.locks && s.locks[p] == id
  }

  predicate Pends(s: State, id: TxId, key: string)
  {
    key in s.pending && s.pending[key] == id
  }

  predicate ClaimsKey(tx: Tx, key: string)
  {
    KeyHeld(tx) && KeyOf(tx.command) == key
  }

  ghost predicate LocksFit(s: State)
  {
    forall id, p :: Holds(s, id, p) <==> id in s.txs && p in Claimed(s.txs[id]) && p in s.db.balances
  }

  ghost predicate PendingFits(s: State)
  {
    (forall id, k :: Pends(s, id, k) <==> id in s.txs && ClaimsKey(s.txs[id], k)) &&
    (forall k :: k in s.pending ==> k !in s.db.keys)
  }

  /** The finished transactions and the recorded outcomes correspond one to one. */
  ghost predicate RecordFits(s: State)
  {
    |s.finished| == |s.history| &&
    (forall i, j :: 0 <= i < j < |s.finished| ==> s.finished[i] != s.finished[j]) &&
    (forall i :: 0 <= i < |s.finished| ==>
       s.finished[i] in s.txs && s.history[i].command == s.txs[s.finished[i]].command &&
       s.txs[s.finished[i]].pc == Done(Some(s.history[i].outcome))) &&
    (forall id :: id in s.txs && s.txs[id].pc.Done? && s.txs[id].pc.result.Some? ==> id in s.finished)
  }

  ghost predicate TxsFit(s: State)
  {
    forall id :: id in s.txs ==> PcFits(s.txs[id]) && LocalFits(s.db, s.txs[id])
  }

  /** The committed tables are those of the recorded commands run one by one. */
  ghost predicate Serial(start: Db, s: State)
  {
    Faithful(start, s.history) && s.db == Replay(start, s.history)
  }

  ghost predicate Inv(start: Db, s: State)
  {
    LocksFit(s) && PendingFits(s) && TxsFit(s) && RecordFits(s) && Serial(start, s)
  }

  // --- What another transaction's commit leaves alone ---------------------------------------

  /** The two databases look the same to a command that holds its locks. */
  predicate SameView(db: Db, other: Db, command: Command)
  {
    other.balances.Keys == db.balances.Keys && other.active == db.active &&
    (forall p :: p in LockOrder(command) && p in db.balances ==> other.balances[p] == db.balances[p]) &&
    (command.Order? ==> PositionAt(other, HoldingOf(command)) == PositionAt(db, HoldingOf(command)))
  }

  lemma LockOrderCovers(command: Command)
    ensures command.Transfer? ==>
              command.source in LockOrder(command) && command.destination in LockOrder(command)
    ensures command.Order? ==> CashRow(command) in LockOrder(command)
  {
  }

  lemma LocalFitsIsStable(db: Db, other: Db, tx: Tx)
    requires LocalFits(db, tx) && SameView(db, other, tx.command)
    requires db.keys <= other.keys
    requires KeyHeld(tx) ==> KeyOf(tx.command) !in other.keys
    ensures LocalFits(other, tx)
  {
    LockOrderCovers(tx.command);
  }

  /** Before its locks are held a transaction has written nothing. */
  lemma LocalFitsWithoutLocks(db: Db, other: Db, tx: Tx)
    requires LocalFits(db, tx) && db.keys <= other.keys && PcFits(tx)
    requires HeldCount(tx) < |LockOrder(tx.command)|
    ensures LocalFits(other, tx)
  {
  }

  // --- Commit is the serial command ----------------------------------------------------------

  lemma CommitIsApply(db: Db, tx: Tx, keys: set<string>)
    requires tx.pc.Commit? && LocalFits(db, tx)
    requires keys == if KeyHeld(tx) then {KeyOf(tx.command)} else {}
    requires KeyHeld(tx) ==> KeyOf(tx.command) !in db.keys
    ensures Apply(db, tx.command) == (Merge(db, tx, keys), tx.pc.outcome)
  {
    var merged := Merge(db, tx, keys);
    match tx.pc.outcome
    case Duplicate =>
      assert merged == db;
    case Completed(left, received) =>
      var command := tx.command;
      assert merged.balances == db.balances[command.source := left][command.destination := received];
      assert merged.ledger == ApplyTransfer(db, command).0.ledger;
      assert merged.keys == ApplyTransfer(db, command).0.keys;
    case Executed(_, _) =>
      assert merged.balances == db.balances[CashRow(tx.command) := tx.pc.outcome.cash];
      assert merged.ledger == db.ledger && merged.keys == db.keys;
    case _ =>
  }

  // --- Every action keeps the invariant ------------------------------------------------------

  /** Only transaction `id` is new or changed. */
  predicate OthersSame(s: State, after: State, id: TxId)
  {
    after.txs.Keys == s.txs.Keys + {id} &&
    forall other :: other in s.txs && other != id ==> after.txs[other] == s.txs[other]
  }

  lemma LocksFollow(s: State, after: State, id: TxId)
    requires LocksFit(s) && OthersSame(s, after, id) && after.db.balances.Keys == s.db.balances.Keys
    requires forall other, p :: other != id ==> (Holds(after, other, p) <==> Holds(s, other, p))
    requires forall p :: Holds(after, id, p) <==> p in Claimed(after.txs[id]) && p in after.db.balances
    ensures LocksFit(after)
  {
  }

  lemma PendingFollows(s: State, after: State, id: TxId)
    requires PendingFits(s) && OthersSame(s, after, id)
    requires forall other, k :: other != id ==> (Pends(after, other, k) <==> Pends(s, other, k))
    requires forall k :: Pends(after, id, k) <==> ClaimsKey(after.txs[id], k)
    requires forall k :: k in after.pending ==> k !in after.db.keys
    ensures PendingFits(after)
  {
  }

  lemma TxsFollow(s: State, after: State, id: TxId)
    requires TxsFit(s) && OthersSame(s, after, id) && after.db == s.db
    requires PcFits(after.txs[id]) && LocalFits(after.db, after.txs[id])
    ensures TxsFit(after)
  {
    forall other | other in after.txs ensures PcFits(after.txs[other]) && LocalFits(after.db, after.txs[other]) {
      if other != id {
        assert after.txs[other] == s.txs[other];
      }
    }
  }

  lemma RecordFollows(s: State, after: State, id: TxId)
    requires RecordFits(s) && OthersSame(s, after, id)
    requires after.history == s.history && after.finished == s.finished
    requires id in s.txs ==> Unfinished(s.txs[id])
    requires after.txs[id].pc.Done? ==> after.txs[id].pc.result.None?
    ensures RecordFits(after)
  {
  }

  lemma RecordExtends(s: State, after: State, id: TxId, outcome: Outcome)
    requires RecordFits(s) && OthersSame(s, after, id)
    requires id in s.txs && Unfinished(s.txs[id])
    requires after.txs[id] == s.txs[id].(pc := Done(Some(outcome)))
    requires after.history == s.history + [Event(s.txs[id].command, outcome)]
    requires after.finished == s.finished + [id]
    ensures RecordFits(after)
  {
    assert forall i :: 0 <= i < |s.finished| ==> s.finished[i] != id;
  }

  lemma BeginKeepsInv(start: Db, s: State, command: Command, id: TxId)
    requires Inv(start, s) && id !in s.txs
    ensures Inv(start, Do(s, Begin(command, id)))
  {
    var after := Do(s, Begin(command, id));
    assert forall p :: !Holds(s, id, p);
    assert forall k :: !Pends(s, id, k);
    assert forall other, p :: Holds(after, other, p) <==> Holds(s, other, p);
    assert forall other, k :: Pends(after, other, k) <==> Pends(s, other, k);
    assert forall k :: !ClaimsKey(after.txs[id], k);
    LocksFollow(s, after, id);
    PendingFollows(s, after, id);
    TxsFollow(s, after, id);
    RecordFollows(s, after, id);
  }

  lemma ReleaseKeepsLocks(s: State, after: State, id: TxId, result: Option<Outcome>)
    requires LocksFit(s) && PendingFits(s) && id in s.txs
    requires after.locks == ReleaseAll(s, id).locks && after.pending == ReleaseAll(s, id).pending
    requires after.txs == s.txs[id := s.txs[id].(pc := Done(result))]
    requires after.db.balances.Keys == s.db.balances.Keys
    requires forall k :: k in after.pending ==> k !in after.db.keys
    ensures OthersSame(s, after, id) && LocksFit(after) && PendingFits(after)
  {
    assert Claimed(after.txs[id]) == [];
    assert forall other, p :: Holds(after, other, p) <==> other != id && Holds(s, other, p);
    assert forall other, k :: Pends(after, other, k) <==> other != id && Pends(s, other, k);
    LocksFollow(s, after, id);
    PendingFollows(s, after, id);
  }

  lemma LoseKeepsInv(start: Db, s: State, id: TxId)
    requires Inv(start, s) && id in s.txs && Unfinished(s.txs[id])
    ensures Inv(start, Do(s, Lose(id)))
  {
    var after := Do(s, Lose(id));
    ReleaseKeepsLocks(s, after, id, None);
    TxsFollow(s, after, id);
    RecordFollows(s, after, id);
  }

  lemma ClaimKeyKeepsPending(s: State, id: TxId)
    requires PendingFits(s) && Enabled(s, id) && s.txs[id].pc.Start?
    ensures PendingFits(ClaimKey(s, id))
  {
    var tx, after := s.txs[id], ClaimKey(s, id);
    assert forall k :: !Pends(s, id, k);
    if KeyHeld(after.txs[id]) {
      var key := KeyOf(tx.command);
      assert forall other, k :: Pends(after, other, k) <==> (if k == key then other == id else Pends(s, other, k));
      assert forall other :: !Pends(s, other, key);
    } else {
      assert forall other, k :: Pends(after, other, k) <==> Pends(s, other, k);
    }
    PendingFollows(s, after, id);
  }

  lemma ClaimKeyKeepsLocks(s: State, id: TxId)
    requires LocksFit(s) && Enabled(s, id) && s.txs[id].pc.Start?
    ensures LocksFit(ClaimKey(s, id))
  {
    var after := ClaimKey(s, id);
    assert Claimed(s.txs[id]) == [] && Claimed(after.txs[id]) == [];
    assert forall p :: !Holds(s, id, p);
    assert forall other, p :: Holds(after, other, p) <==> Holds(s, other, p);
    LocksFollow(s, after, id);
  }

  lemma ClaimKeyKeepsTxs(s: State, id: TxId)
    requires TxsFit(s) && Enabled(s, id) && s.txs[id].pc.Start?
    ensures TxsFit(ClaimKey(s, id))
  {
    var after := ClaimKey(s, id);
    assert PcFits(after.txs[id]) && LocalFits(after.db, after.txs[id]);
    assert after.db == s.db && OthersSame(s, after, id);
    hide TxsFit, PcFits, LocalFits, OthersSame, ClaimKey;
    TxsFollow(s, after, id);
  }

  lemma ClaimKeyKeepsRecord(s: State, id: TxId)
    requires RecordFits(s) && Enabled(s, id) && s.txs[id].pc.Start?
    ensures RecordFits(ClaimKey(s, id))
  {
    RecordFollows(s, ClaimKey(s, id), id);
  }

  lemma ClaimKeyKeepsInv(start: Db, s: State, id: TxId)
    requires Inv(start, s) && Enabled(s, id) && s.txs[id].pc.Start?
    ensures Inv(start, ClaimKey(s, id))
  {
    ClaimKeyKeepsLocks(s, id);
    ClaimKeyKeepsPending(s, id);
    ClaimKeyKeepsTxs(s, id);
    ClaimKeyKeepsRecord(s, id);
  }

  lemma LockRowKeepsLocks(s: State, id: TxId)
    requires LocksFit(s) && Enabled(s, id) && s.txs[id].pc.Lock?
    ensures LocksFit(LockRow(s, id))
  {
    var tx, after := s.txs[id], LockRow(s, id);
    var row := LockOrder(tx.command)[tx.pc.index];
    assert Claimed(after.txs[id]) == Claimed(tx) + [row];
    if row in s.db.balances {
      assert forall other, p :: Holds(after, other, p) <==> (if p == row then other == id else Holds(s, other, p));
      assert forall other :: Holds(s, other, row) ==> other == id;
    } else {
      assert forall other, p :: Holds(after, other, p) <==> Holds(s, other, p);
    }
    LocksFollow(s, after, id);
  }

  lemma LockRowKeepsPending(s: State, id: TxId)
    requires PendingFits(s) && Enabled(s, id) && s.txs[id].pc.Lock?
    ensures PendingFits(LockRow(s, id))
  {
    var tx, after := s.txs[id], LockRow(s, id);
    assert forall other, k :: Pends(after, other, k) <==> Pends(s, other, k);
    assert forall k :: ClaimsKey(after.txs[id], k) <==> ClaimsKey(tx, k);
    PendingFollows(s, after, id);
  }

  lemma LockRowKeepsTxs(s: State, id: TxId)
    requires TxsFit(s) && Enabled(s, id) && s.txs[id].pc.Lock?
    ensures TxsFit(LockRow(s, id))
  {
    var after := LockRow(s, id);
    assert after.db == s.db && OthersSame(s, after, id);
    TxsFollow(s, after, id);
  }

  lemma LockRowKeepsInv(start: Db, s: State, id: TxId)
    requires Inv(start, s) && Enabled(s, id) && s.txs[id].pc.Lock?
    ensures Inv(start, LockRow(s, id))
  {
    LockRowKeepsLocks(s, id);
    LockRowKeepsPending(s, id);
    LockRowKeepsTxs(s, id);
    RecordFollows(s, LockRow(s, id), id);
  }

  predicate InBody(tx: Tx)
  {
    tx.pc.Debit? || tx.pc.LogOut? || tx.pc.Credit? || tx.pc.LogIn? || tx.pc.Execute?
  }

  /** Each private step leads to the next private state, and never to a duplicate. */
  lemma BodyFits(db: Db, tx: Tx)
    requires InBody(tx) && PcFits(tx) && LocalFits(db, tx)
    requires KeyHeld(tx) ==> KeyOf(tx.command) !in db.keys
    ensures var next := Body(db, tx);
            PcFits(next) && LocalFits(db, next) && next.command == tx.command &&
            Claimed(next) == Claimed(tx) && KeyHeld(next) == KeyHeld(tx) && Unfinished(next)
  {
    var next := Body(db, tx);
    if tx.pc.Execute? && next.pc.Commit? {
      assert map[][CashRow(tx.command) := next.pc.outcome.cash] == map[CashRow(tx.command) := next.pc.outcome.cash];
    }
  }

  lemma BodyKeepsInv(start: Db, s: State, id: TxId)
    requires Inv(start, s) && Enabled(s, id) && InBody(s.txs[id])
    ensures Inv(start, WithTx(s, id, Body(s.db, s.txs[id])))
  {
    var tx, after := s.txs[id], WithTx(s, id, Body(s.db, s.txs[id]));
    if KeyHeld(tx) {
      assert Pends(s, id, KeyOf(tx.command));
    }
    BodyFits(s.db, tx);
    assert forall other, p :: Holds(after, other, p) <==> Holds(s, other, p);
    LocksFollow(s, after, id);
    assert forall other, k :: Pends(after, other, k) <==> Pends(s, other, k);
    assert forall k :: ClaimsKey(after.txs[id], k) <==> ClaimsKey(tx, k);
    PendingFollows(s, after, id);
    TxsFollow(s, after, id);
    RecordFollows(s, after, id);
  }

  lemma RollbackKeepsInv(start: Db, s: State, id: TxId)
    requires Inv(start, s) && id in s.txs && s.txs[id].pc.Rollback?
    ensures Inv(start, Step(s, id))
  {
    var tx, after := s.txs[id], Step(s, id);
    var outcome := tx.pc.outcome;
    ReleaseKeepsLocks(s, after, id, Some(outcome));
    TxsFollow(s, after, id);
    RecordExtends(s, after, id, outcome);
    FailureLeavesNoTrace(s.db, tx.command);
    ReplayAppend(start, s.history, Event(tx.command, outcome));
  }

  /** A commit writes only rows that its transaction holds. */
  lemma WritesAreHeld(s: State, id: TxId)
    requires LocksFit(s) && id in s.txs && s.txs[id].pc.Commit? && LocalFits(s.db, s.txs[id])
    ensures forall p :: p in s.txs[id].writes ==> Holds(s, id, p)
    ensures s.txs[id].position.Written? ==>
              s.txs[id].command.Order? && s.txs[id].position.holding == HoldingOf(s.txs[id].command) &&
              Holds(s, id, CashRow(s.txs[id].command))
  {
    var tx := s.txs[id];
    LockOrderCovers(tx.command);
    if !tx.pc.outcome.Duplicate? {
      assert Claimed(tx) == LockOrder(tx.command);
    }
  }

  /** Other transactions that hold their locks see the same rows before and after a commit. */
  lemma CommitKeepsView(s: State, id: TxId, other: TxId)
    requires LocksFit(s) && id in s.txs && s.txs[id].pc.Commit? && LocalFits(s.db, s.txs[id])
    requires other in s.txs && other != id
    requires HeldCount(s.txs[other]) == |LockOrder(s.txs[other].command)|
    ensures SameView(s.db, Merge(s.db, s.txs[id], ClaimedKeys(s, id)), s.txs[other].command)
  {
    WritesAreHeld(s, id);
    OthersRowsUntouched(s, id, other);
    var tx := s.txs[id];
    assert forall p :: p in tx.writes ==> p in s.db.balances;
  }

  lemma OthersRowsUntouched(s: State, id: TxId, other: TxId)
    requires LocksFit(s) && other in s.txs && other != id
    requires HeldCount(s.txs[other]) == |LockOrder(s.txs[other].command)|
    ensures forall p :: p in LockOrder(s.txs[other].command) && p in s.db.balances ==> !Holds(s, id, p)
    ensures s.txs[other].command.Order? && CashRow(s.txs[other].command) in s.db.balances ==>
              !Holds(s, id, CashRow(s.txs[other].command))
  {
    var command := s.txs[other].command;
    LockOrderCovers(command);
    assert Claimed(s.txs[other]) == LockOrder(command);
    forall p | p in LockOrder(command) && p in s.db.balances ensures !Holds(s, id, p) {
      assert Holds(s, other, p);
    }
  }

  lemma CommitKeepsOthers(s: State, id: TxId, other: TxId, merged: Db)
    requires LocksFit(s) && PendingFits(s) && TxsFit(s) && id in s.txs && s.txs[id].pc.Commit?
    requires other in s.txs && other != id && merged == Merge(s.db, s.txs[id], ClaimedKeys(s, id))
    ensures LocalFits(merged, s.txs[other])
  {
    var tx := s.txs[other];
    if tx.pc.Done? || tx.pc == Commit(Duplicate) {
    } else if HeldCount(tx) == |LockOrder(tx.command)| {
      CommitKeepsView(s, id, other);
      if KeyHeld(tx) {
        assert Pends(s, other, KeyOf(tx.command));
        assert !Pends(s, id, KeyOf(tx.command));
      }
      LocalFitsIsStable(s.db, merged, tx);
    } else {
      LocalFitsWithoutLocks(s.db, merged, tx);
    }
  }

  lemma CommitKeepsTxs(s: State, id: TxId)
    requires LocksFit(s) && PendingFits(s) && TxsFit(s) && id in s.txs && s.txs[id].pc.Commit?
    ensures TxsFit(Step(s, id))
  {
    var after := Step(s, id);
    assert OthersSame(s, after, id);
    forall other | other in after.txs ensures PcFits(after.txs[other]) && LocalFits(after.db, after.txs[other]) {
      if other != id {
        CommitKeepsOthers(s, id, other, after.db);
      }
    }
  }

  /** The commit publishes exactly what the command does when it is run alone. */
  lemma CommitPublishes(s: State, id: TxId)
    requires PendingFits(s) && TxsFit(s) && id in s.txs && s.txs[id].pc.Commit?
    ensures (Step(s, id).db, s.txs[id].pc.outcome) == Apply(s.db, s.txs[id].command)
    ensures forall k :: k in s.pending && s.pending[k] != id ==> k !in Step(s, id).db.keys
  {
    var tx, keys := s.txs[id], ClaimedKeys(s, id);
    assert forall k :: k in keys <==> Pends(s, id, k);
    assert keys == if KeyHeld(tx) then {KeyOf(tx.command)} else {};
    if KeyHeld(tx) {
      assert Pends(s, id, KeyOf(tx.command));
    }
    CommitIsApply(s.db, tx, keys);
  }

  lemma CommitKeepsInv(start: Db, s: State, id: TxId)
    requires Inv(start, s) && id in s.txs && s.txs[id].pc.Commit?
    ensures Inv(start, Step(s, id))
  {
    var tx, after := s.txs[id], Step(s, id);
    CommitPublishes(s, id);
    CommandConserves(s.db, tx.command);
    ReplayAppend(start, s.history, Event(tx.command, tx.pc.outcome));
    ReleaseKeepsLocks(s, after, id, Some(tx.pc.outcome));
    RecordExtends(s, after, id, tx.pc.outcome);
    CommitKeepsTxs(s, id);
  }

  lemma ActionKeepsInv(start: Db, s: State, action: Action)
    requires Inv(start, s) && Allowed(s, action)
    ensures Inv(start, Do(s, action))
  {
    match action
    case Begin(command, id) => BeginKeepsInv(start, s, command, id);
    case Lose(id) => LoseKeepsInv(start, s, id);
    case Advance(id) =>
      match s.txs[id].pc
      case Start => ClaimKeyKeepsInv(start, s, id);
      case Lock(_) => LockRowKeepsInv(start, s, id);
      case Commit(_) => CommitKeepsInv(start, s, id);
      case Rollback(_) => RollbackKeepsInv(start, s, id);
      case _ => BodyKeepsInv(start, s, id);
  }
}
