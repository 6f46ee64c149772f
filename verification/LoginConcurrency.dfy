/**
 * Logins of one account that overlap: each reads the row, waits for the password check, and saves the whole
 * row back, without a lock.
 */
module LoginConcurrency {

  import opened LoginLockout
  import opened Sequences

  type CallId = nat

  datatype Pc =
    | Arrived                                // the clock has been read
    | Hashing(copy: Account)                 // the row has been read and was not locked
    | Saving(row: Account, outcome: Outcome)
    | Done(outcome: Outcome)
    | Died

  datatype Call = Call(attempt: Attempt, pc: Pc)

  datatype State = State(row: Account, calls: map<CallId, Call>)

  datatype Action =
    | Begin(call: CallId, attempt: Attempt)
    | Run(call: CallId)
    | Stop(call: CallId)

  predicate Running(pc: Pc)
  {
    !pc.Done? && !pc.Died?
  }

  predicate Allowed(s: State, action: Action)
  {
    match action
    case Begin(k, _) => k !in s.calls
    case Run(k) => k in s.calls && Running(s.calls[k].pc)
    case Stop(k) => k in s.calls && Running(s.calls[k].pc)
  }

  function NextPc(s: State, call: Call): Pc
  {
    match call.pc
    case Arrived => if IsLocked(s.row, call.attempt.now) then Done(AccountLocked) else Hashing(s.row)
    case Hashing(copy) =>
      var outcome := OutcomeOf(copy, call.attempt);
      if outcome.InvalidCredentials? || outcome.LoggedIn? then Saving(Login(copy, call.attempt), outcome)
      else Done(outcome)
    case Saving(_, outcome) => Done(outcome)
    case Done(_) => call.pc
    case Died => call.pc
  }

  function Do(s: State, action: Action): State
    requires Allowed(s, action)
  {
    match action
    case Begin(k, attempt) => s.(calls := s.calls[k := Call(attempt, Arrived)])
    case Run(k) =>
      var call := s.calls[k];
      State(if call.pc.Saving? then call.pc.row else s.row, s.calls[k := call.(pc := NextPc(s, call))])
    case Stop(k) => s.(calls := s.calls[k := s.calls[k].(pc := Died)])
  }

  ghost predicate ValidRun(start: State, actions: seq<Action>)
    decreases |actions|, 0
  {
    |actions| == 0 || (ValidRun(start, Front(actions)) && Allowed(After(start, Front(actions)), Last(actions)))
  }

  ghost function After(start: State, actions: seq<Action>): State
    requires ValidRun(start, actions)
    decreases |actions|, 1
  {
    if |actions| == 0 then start else Do(After(start, Front(actions)), Last(actions))
  }

  // --- Who gets in -----------------------------------------------------------------------------------

  /** A call that has read the row had it, unlocked, as it stood at some earlier moment. */
  lemma {:induction false} CopyWasRow(start: State, actions: seq<Action>, k: CallId) returns (read: nat)
    requires start.calls == map[] && ValidRun(start, actions)
    requires k in After(start, actions).calls && After(start, actions).calls[k].pc.Hashing?
    ensures read < |actions| && ValidRun(start, actions[..read])
    ensures var call := After(start, actions).calls[k];
            call.pc.copy == After(start, actions[..read]).row && !IsLocked(call.pc.copy, call.attempt.now)
  {
    var earlier, s := Front(actions), After(start, Front(actions));
    if k in s.calls && s.calls[k].pc.Hashing? {
      read := CopyWasRow(start, earlier, k);
      assert earlier[..read] == actions[..read];
    } else {
      read := |earlier|;
      assert actions[..read] == earlier;
    }
  }

  /**
   * Whatever overlaps: a call that has logged in, or is about to save that it has, gave a matching password, and
   * a matching code where the account asked for one, on the row as it stood when the call read it.
   */
  lemma {:induction false} LoggedInWasRight(start: State, actions: seq<Action>, k: CallId) returns (read: nat)
    requires start.calls == map[] && ValidRun(start, actions) && k in After(start, actions).calls
    requires var pc := After(start, actions).calls[k].pc;
             (pc.Done? || pc.Saving?) && pc.outcome.LoggedIn?
    ensures read < |actions| && ValidRun(start, actions[..read])
    ensures var row, attempt := After(start, actions[..read]).row, After(start, actions).calls[k].attempt;
            attempt.passwordMatches && row.emailVerified &&
            !(row.lockUntil.Some? && attempt.now < row.lockUntil.value) &&
            (row.twoFactorEnabled ==> attempt.code != "" && row.twoFactorSecret != "" && attempt.codeMatches)
  {
    hide Login;
    var earlier, s := Front(actions), After(start, Front(actions));
    var pc := s.calls[k].pc;
    if (pc.Done? || pc.Saving?) && pc.outcome.LoggedIn? {
      read := LoggedInWasRight(start, earlier, k);
    } else {
      read := CopyWasRow(start, earlier, k);
      OutcomeIff(pc.copy, s.calls[k].attempt);
    }
    assert earlier[..read] == actions[..read];
  }

  // --- What is counted -------------------------------------------------------------------------------

  /** Clock readings from `from` to `to`, both included. */
  datatype Interval = Interval(from: int, to: int)

  predicate Counted(attempt: Attempt, interval: Interval)
  {
    interval.from <= attempt.now <= interval.to
  }

  /** This step checks a password and finds it wrong. */
  predicate Fails(s: State, action: Action)
  {
    action.Run? && action.call in s.calls && s.calls[action.call].pc.Hashing? &&
    OutcomeOf(s.calls[action.call].pc.copy, s.calls[action.call].attempt).InvalidCredentials?
  }

  predicate Failing(pc: Pc)
  {
    pc.Saving? && pc.outcome.InvalidCredentials?
  }

  /** This step records a failure that is counted. */
  predicate Records(s: State, action: Action, interval: Interval)
  {
    action.Run? && action.call in s.calls && Failing(s.calls[action.call].pc) &&
    Counted(s.calls[action.call].attempt, interval)
  }

  /** This step loses a failure that is counted: its call dies before saving. */
  predicate Loses(s: State, action: Action, interval: Interval)
  {
    action.Stop? && action.call in s.calls && Failing(s.calls[action.call].pc) &&
    Counted(s.calls[action.call].attempt, interval)
  }

  /** Passwords checked and wrong, for clock readings in the interval. */
  ghost function Failures(start: State, actions: seq<Action>, interval: Interval): nat
    requires ValidRun(start, actions)
  {
    if |actions| == 0 then 0
    else
      var s := After(start, Front(actions));
      Failures(start, Front(actions), interval) +
      One(Fails(s, Last(actions)) && Counted(s.calls[Last(actions).call].attempt, interval))
  }

  ghost function Recorded(start: State, actions: seq<Action>, interval: Interval): nat
    requires ValidRun(start, actions)
  {
    if |actions| == 0 then 0
    else
      Recorded(start, Front(actions), interval) +
      One(Records(After(start, Front(actions)), Last(actions), interval))
  }

  ghost function Lost(start: State, actions: seq<Action>, interval: Interval): nat
    requires ValidRun(start, actions)
  {
    if |actions| == 0 then 0
    else Lost(start, Front(actions), interval) + One(Loses(After(start, Front(actions)), Last(actions), interval))
  }

  function Pending(s: State, interval: Interval): set<CallId>
  {
    set k | k in s.calls && Failing(s.calls[k].pc) && Counted(s.calls[k].attempt, interval)
  }

  /** Calls between their read and their save. */
  function InFlight(s: State): set<CallId>
  {
    set k | k in s.calls && (s.calls[k].pc.Hashing? || s.calls[k].pc.Saving?)
  }

  ghost predicate AtMostInFlight(start: State, actions: seq<Action>, c: nat)
    requires ValidRun(start, actions)
  {
    |InFlight(After(start, actions))| <= c && (|actions| > 0 ==> AtMostInFlight(start, Front(actions), c))
  }

  /** This step checks everything and finds it right. */
  predicate LogsIn(s: State, action: Action)
  {
    action.Run? && action.call in s.calls && s.calls[action.call].pc.Hashing? &&
    OutcomeOf(s.calls[action.call].pc.copy, s.calls[action.call].attempt).LoggedIn?
  }

  ghost predicate NobodyLogsIn(start: State, actions: seq<Action>)
    requires ValidRun(start, actions)
  {
    |actions| > 0 ==>
      NobodyLogsIn(start, Front(actions)) && !LogsIn(After(start, Front(actions)), Last(actions))
  }

  /** Each wrong password is recorded, about to be, or lost. */
  lemma {:induction false} FailuresAreAccountedFor(start: State, actions: seq<Action>, interval: Interval)
    requires start.calls == map[] && ValidRun(start, actions)
    ensures Failures(start, actions, interval) ==
            Recorded(start, actions, interval) + |Pending(After(start, actions), interval)| +
            Lost(start, actions, interval)
  {
    if |actions| == 0 {
      assert Pending(start, interval) == {};
    } else {
      FailuresAreAccountedFor(start, Front(actions), interval);
      PendingAfter(After(start, Front(actions)), Last(actions), interval);
    }
  }

  lemma PendingAfter(s: State, action: Action, interval: Interval)
    requires Allowed(s, action)
    ensures |Pending(Do(s, action), interval)| ==
            |Pending(s, interval)| +
            One(Fails(s, action) && Counted(s.calls[action.call].attempt, interval)) -
            One(Records(s, action, interval)) - One(Loses(s, action, interval))
  {
    hide Login, OutcomeOf, IsLocked, Pending;
    PendingOfOthers(s, Do(s, action), action.call, interval);
  }

  predicate IsPending(call: Call, interval: Interval)
  {
    Failing(call.pc) && Counted(call.attempt, interval)
  }

  /** Only the call that steps can start or stop being pending. */
  lemma PendingOfOthers(s: State, after: State, k: CallId, interval: Interval)
    requires k in after.calls && after.calls == s.calls[k := after.calls[k]]
    ensures |Pending(after, interval)| ==
            |Pending(s, interval)| - One(k in s.calls && IsPending(s.calls[k], interval)) +
            One(IsPending(after.calls[k], interval))
  {
    var before, now := Pending(s, interval), Pending(after, interval);
    assert forall j :: j != k ==> (j in before <==> j in now);
    assert before - {k} == now - {k};
    assert |before - {k}| == |before| - One(k in before);
    assert |now - {k}| == |now| - One(k in now);
  }

  // --- Attempts that do not overlap ------------------------------------------------------------------

  /** A call in flight has what the row still holds. */
  predicate Current(s: State, call: Call)
  {
    match call.pc
    case Hashing(copy) => copy == s.row && !IsLocked(copy, call.attempt.now)
    case Saving(row, outcome) =>
      row == Login(s.row, call.attempt) && outcome == OutcomeOf(s.row, call.attempt) && !outcome.LoggedIn?
    case _ => true
  }

  predicate AllCurrent(s: State)
  {
    forall k :: k in s.calls ==> Current(s, s.calls[k])
  }

  lemma SingleInFlight(s: State, j: CallId, k: CallId)
    requires |InFlight(s)| <= 1 && j in InFlight(s) && k in InFlight(s)
    ensures j == k
  {
    assert |InFlight(s) - {j}| == |InFlight(s)| - 1;
    assert k !in InFlight(s) - {j};
  }

  lemma StepKeepsCurrent(s: State, action: Action)
    requires AllCurrent(s) && Allowed(s, action) && |InFlight(s)| <= 1 && !LogsIn(s, action)
    ensures AllCurrent(Do(s, action))
  {
    hide IsLocked, Login, OutcomeOf;
    var after := Do(s, action);
    forall j | j in after.calls ensures Current(after, after.calls[j]) {
      if action.Run? && s.calls[action.call].pc.Saving? && j in InFlight(s) {
        SingleInFlight(s, j, action.call);
      }
      if j in s.calls {
        assert Current(s, s.calls[j]);
      }
    }
  }

  lemma {:induction false} SerialRun(start: State, actions: seq<Action>, from: int, length: nat)
    requires start.calls == map[] && ValidRun(start, actions)
    requires AtMostInFlight(start, actions, 1) && NobodyLogsIn(start, actions)
    ensures AllCurrent(After(start, actions))
    ensures var interval := Interval(from, from + length);
            Held(After(start, actions).row, from, Recorded(start, actions, interval)) &&
            Recorded(start, actions, interval) + |Pending(After(start, actions), interval)| <=
            MAX_ATTEMPTS + length / LOCK_MS
  {
    var interval := Interval(from, from + length);
    if |actions| == 0 {
      assert Pending(start, interval) == {};
    } else {
      hide Held, Pending, InFlight, Current;
      var s, last := After(start, Front(actions)), Last(actions);
      SerialRun(start, Front(actions), from, length);
      StepKeepsCurrent(s, last);
      SerialStep(s, last, from, length, Recorded(start, Front(actions), interval));
    }
  }

  lemma SerialStep(s: State, action: Action, from: int, length: nat, recorded: nat)
    requires AllCurrent(s) && Allowed(s, action) && |InFlight(s)| <= 1 && !LogsIn(s, action)
    requires Held(s.row, from, recorded)
    requires recorded + |Pending(s, Interval(from, from + length))| <= MAX_ATTEMPTS + length / LOCK_MS
    ensures var interval := Interval(from, from + length);
            var now := recorded + One(Records(s, action, interval));
            Held(Do(s, action).row, from, now) &&
            now + |Pending(Do(s, action), interval)| <= MAX_ATTEMPTS + length / LOCK_MS
  {
    hide Held, OutcomeOf, Login, IsLocked;
    var interval := Interval(from, from + length);
    PendingAfter(s, action, interval);
    if action.Run? {
      var call := s.calls[action.call];
      assert Current(s, call);
      if call.pc.Saving? {
        LoginHolds(s.row, call.attempt, from, recorded);
      } else if Fails(s, action) && Counted(call.attempt, interval) {
        OnlyOnePending(s, action.call, interval);
        LastFailureIsLate(s.row, call.attempt, from, recorded);
        MoreLocksFit(call.attempt.now - from, length);
      }
    }
  }

  lemma OnlyOnePending(s: State, k: CallId, interval: Interval)
    requires |InFlight(s)| <= 1 && k in s.calls && s.calls[k].pc.Hashing?
    ensures Pending(s, interval) == {}
  {
    forall j | j in Pending(s, interval) ensures false {
      assert j in InFlight(s) && k in InFlight(s);
      SingleInFlight(s, j, k);
    }
  }

  /**
   * In every run in which no attempt reads the account between another one's read and save, from any row
   * and without a full login: for clock readings in any closed interval of `length` milliseconds at most
   * 5 + length / 15 min passwords are checked and wrong, besides those whose call died before saving.
   */
  lemma SeparateAttemptsAreBounded(start: State, actions: seq<Action>, from: int, length: nat)
    requires start.calls == map[] && ValidRun(start, actions)
    requires AtMostInFlight(start, actions, 1) && NobodyLogsIn(start, actions)
    ensures var interval := Interval(from, from + length);
            Failures(start, actions, interval) <=
            MAX_ATTEMPTS + length / LOCK_MS + Lost(start, actions, interval)
  {
    SerialRun(start, actions, from, length);
    FailuresAreAccountedFor(start, actions, Interval(from, from + length));
  }
}
