/**
 * How many wrong passwords overlapping logins can get through: a bound for any number of attempts at a time,
 * runs that reach it, and the failures that it allows.
 */
module LoginOverlap {

  import opened Wrappers
  import opened LoginLockout
  import opened LoginConcurrency
  import opened Sequences

  /** One less than the number of ways to choose `c` out of `c + d`. */
  function Most(c: nat, d: nat): nat
  {
    if c == 0 || d == 0 then 0 else Most(c - 1, d) + 1 + Most(c, d - 1)
  }

  lemma {:induction false} MostOfOne(d: nat)
    ensures Most(1, d) == d
  {
    if d > 0 {
      MostOfOne(d - 1);
    }
  }

  /** The binomial coefficient. */
  function Choose(n: nat, k: nat): nat
    requires k <= n
  {
    if k == 0 || k == n then 1 else Choose(n - 1, k - 1) + Choose(n - 1, k)
  }

  lemma {:induction false} MostIsChoose(c: nat, d: nat)
    ensures Most(c, d) + 1 == Choose(c + d, c)
  {
    if c > 0 && d > 0 {
      MostIsChoose(c - 1, d);
      MostIsChoose(c, d - 1);
    }
  }

  /** What level `d` below the top adds when `h` calls can still reach it. */
  function Weight(h: nat, d: nat): nat
    requires d > 0
  {
    if h == 0 then 0 else Most(h - 1, d) + 1
  }

  lemma {:induction false} MostGrows(c: nat, e: nat, d: nat)
    requires c <= e
    ensures Most(c, d) <= Most(e, d)
    decreases e
  {
    if c < e {
      MostGrows(c, e - 1, d);
    }
  }

  lemma WeightGrows(h: nat, g: nat, d: nat)
    requires h <= g && d > 0
    ensures Weight(h, d) <= Weight(g, d)
  {
    if h > 0 {
      MostGrows(h - 1, g - 1, d);
    }
  }

  /**
   * How many failures led to the row (`stored`) and to the copy of each call in flight (`held`): a copy has
   * the depth of the row it was read from, and saving it makes the row one deeper than the copy.
   */
  datatype Depths = Depths(stored: nat, held: map<CallId, nat>)

  function Below(held: map<CallId, nat>, level: nat): set<CallId>
  {
    set k | k in held && held[k] < level
  }

  /** How many of `c` calls are not below a level. */
  function Reaching(c: nat, held: map<CallId, nat>, level: nat): nat
  {
    if |Below(held, level)| <= c then c - |Below(held, level)| else 0
  }

  /** A bound on the failures recorded when the row is `n` deep and no row gets deeper than `top`. */
  function Room(c: nat, held: map<CallId, nat>, top: nat, n: nat): nat
    requires n <= top
  {
    if n == 0 then 0 else Room(c, held, top, n - 1) + Weight(Reaching(c, held, n), top - n + 1)
  }

  function Min(a: nat, b: nat): nat
  {
    if a < b then a else b
  }

  lemma CardinalityGrows(a: set<CallId>, b: set<CallId>)
    requires a <= b
    ensures |a| <= |b|
  {
    assert |b - a| == |b| - |a|;
  }

  /** Levels above `a` that at most `h` calls reach add no more than `h` calls can do there. */
  lemma {:induction false} RoomAbove(c: nat, held: map<CallId, nat>, top: nat, a: nat, n: nat, h: nat)
    requires a <= n <= top && Reaching(c, held, a + 1) <= h
    ensures Room(c, held, top, n) + Most(h, top - n) <= Room(c, held, top, a) + Most(h, top - a)
    decreases n
  {
    hide Reaching;
    if a < n {
      RoomAbove(c, held, top, a, n - 1, h);
      assert Reaching(c, held, n) <= h by {
        ReachingShrinks(c, held, a + 1, n);
      }
      WeightGrows(Reaching(c, held, n), h, top - n + 1);
    }
  }

  lemma ReachingShrinks(c: nat, held: map<CallId, nat>, level: nat, higher: nat)
    requires level <= higher
    ensures Reaching(c, held, higher) <= Reaching(c, held, level)
  {
    CardinalityGrows(Below(held, level), Below(held, higher));
  }

  lemma RoomIsBounded(c: nat, held: map<CallId, nat>, top: nat, n: nat)
    requires n <= top
    ensures Room(c, held, top, n) <= Most(c, top)
  {
    RoomAbove(c, held, top, 0, n, c);
  }

  /** Fewer copies below each level leave more room. */
  lemma {:induction false} RoomGrows(c: nat, held: map<CallId, nat>, other: map<CallId, nat>, top: nat, n: nat)
    requires n <= top && forall t: nat :: t <= n ==> |Below(other, t)| <= |Below(held, t)|
    ensures Room(c, held, top, n) <= Room(c, other, top, n)
  {
    if n > 0 {
      RoomGrows(c, held, other, top, n - 1);
      WeightGrows(Reaching(c, held, n), Reaching(c, other, n), top - n + 1);
    }
  }

  lemma {:induction false} RoomUpTo(c: nat, held: map<CallId, nat>, top: nat, n: nat, m: nat)
    requires n <= m <= top
    ensures Room(c, held, top, n) <= Room(c, held, top, m)
    decreases m
  {
    if n < m {
      RoomUpTo(c, held, top, n, m - 1);
    }
  }

  lemma BelowWithout(held: map<CallId, nat>, k: CallId, t: nat)
    requires k in held
    ensures |Below(held - {k}, t)| == |Below(held, t)| - One(held[k] < t)
  {
    assert Below(held - {k}, t) == Below(held, t) - {k};
  }

  lemma WithoutLeavesRoom(c: nat, held: map<CallId, nat>, k: CallId, top: nat, n: nat)
    requires k in held && n <= top
    ensures Room(c, held, top, n) <= Room(c, held - {k}, top, n)
  {
    forall t: nat | t <= n ensures |Below(held - {k}, t)| <= |Below(held, t)| {
      BelowWithout(held, k, t);
    }
    RoomGrows(c, held, held - {k}, top, n);
  }

  lemma ReachingAfterSave(c: nat, held: map<CallId, nat>, k: CallId)
    requires k in held && |held| <= c
    ensures Reaching(c, held - {k}, held[k] + 1) == Reaching(c, held, held[k] + 1) + 1
  {
    BelowWithout(held, k, held[k] + 1);
    CardinalityGrows(Below(held, held[k] + 1), held.Keys);
  }

  /** Saving a copy makes room for one more failure, however deep the row was that it replaces. */
  lemma SavingMakesRoom(c: nat, held: map<CallId, nat>, k: CallId, top: nat, n: nat)
    requires k in held && |held| <= c && n <= top && held[k] + 1 <= top
    ensures Room(c, held, top, n) + 1 <= Room(c, held - {k}, top, held[k] + 1)
  {
    var u, rest := held[k], held - {k};
    var h := Reaching(c, held, u + 1);
    ReachingAfterSave(c, held, k);
    assert Room(c, held, top, u) <= Room(c, rest, top, u) by { WithoutLeavesRoom(c, held, k, top, u); }
    assert Room(c, rest, top, u + 1) == Room(c, rest, top, u) + Weight(h + 1, top - u);
    hide Room, Reaching;
    if n <= u {
      RoomUpTo(c, held, top, n, u);
    } else {
      RoomAbove(c, held, top, u, n, h);
    }
  }

  predicate CallFits(call: Call, depth: nat, interval: Interval, top: nat)
  {
    match call.pc
    case Hashing(copy) => Held(copy, interval.from, depth) && !IsLocked(copy, call.attempt.now)
    case Saving(row, outcome) =>
      outcome.InvalidCredentials? && Held(row, interval.from, depth + 1) &&
      (call.attempt.now <= interval.to ==> depth + 1 <= top)
    case _ => true
  }

  predicate CallsFit(s: State, d: Depths, interval: Interval, top: nat)
  {
    forall k :: k in d.held ==> k in s.calls && CallFits(s.calls[k], d.held[k], interval, top)
  }

  predicate AllSince(s: State, from: int)
  {
    forall k :: k in s.calls ==> from <= s.calls[k].attempt.now
  }

  predicate DepthsFit(s: State, d: Depths, interval: Interval, top: nat)
  {
    d.held.Keys == InFlight(s) && Held(s.row, interval.from, d.stored) &&
    AllSince(s, interval.from) && CallsFit(s, d, interval, top)
  }

  function Top(length: nat): nat
  {
    MAX_ATTEMPTS + length / LOCK_MS
  }

  lemma ReadLeavesRoom(c: nat, held: map<CallId, nat>, k: CallId, stored: nat, top: nat)
    requires k !in held
    ensures Room(c, held, top, Min(stored, top)) <= Room(c, held[k := stored], top, Min(stored, top))
  {
    forall t: nat | t <= Min(stored, top) ensures |Below(held[k := stored], t)| <= |Below(held, t)| {
      assert Below(held[k := stored], t) == Below(held, t);
    }
    RoomGrows(c, held, held[k := stored], top, Min(stored, top));
  }

  /** A wrong password in the interval leads no deeper than the locks allow. */
  lemma CheckFits(call: Call, depth: nat, from: int, length: nat)
    requires call.pc.Hashing? && CallFits(call, depth, Interval(from, from + length), Top(length))
    requires from <= call.attempt.now && OutcomeOf(call.pc.copy, call.attempt).InvalidCredentials?
    ensures Held(Login(call.pc.copy, call.attempt), from, depth + 1)
    ensures call.attempt.now <= from + length ==> depth + 1 <= Top(length)
  {
    hide Held, OutcomeOf, Login, IsLocked;
    LoginHolds(call.pc.copy, call.attempt, from, depth);
    LastFailureIsLate(call.pc.copy, call.attempt, from, depth);
    if call.attempt.now <= from + length {
      MoreLocksFit(call.attempt.now - from, length);
    }
  }

  /** What one step does to the depths. */
  function NextDepths(s: State, d: Depths, action: Action): Depths
    requires Allowed(s, action) && d.held.Keys == InFlight(s)
  {
    match action
    case Begin(_, _) => d
    case Stop(k) => d.(held := d.held - {k})
    case Run(k) =>
      var before, after := s.calls[k].pc, NextPc(s, s.calls[k]);
      if before.Saving? then Depths(d.held[k] + 1, d.held - {k})
      else if after.Hashing? then d.(held := d.held[k := d.stored])
      else if after.Saving? then d
      else d.(held := d.held - {k})
  }

  lemma StepKeepsDepths(s: State, action: Action, d: Depths, from: int, length: nat)
    requires Allowed(s, action) && !LogsIn(s, action) && DepthsFit(s, d, Interval(from, from + length), Top(length))
    requires action.Begin? ==> from <= action.attempt.now
    ensures DepthsFit(Do(s, action), NextDepths(s, d, action), Interval(from, from + length), Top(length))
  {
    hide Held, OutcomeOf, Login, IsLocked, Top;
    var interval, after, next := Interval(from, from + length), Do(s, action), NextDepths(s, d, action);
    assert next.held.Keys == InFlight(after);
    if Fails(s, action) {
      CheckFits(s.calls[action.call], d.held[action.call], from, length);
    }
    if action.Run? && s.calls[action.call].pc.Saving? {
      assert CallFits(s.calls[action.call], d.held[action.call], interval, Top(length));
    }
    forall k | k in next.held
      ensures k in after.calls && CallFits(after.calls[k], next.held[k], interval, Top(length))
    {
      if k in d.held {
        assert CallFits(s.calls[k], d.held[k], interval, Top(length));
      }
    }
  }

  lemma SaveKeepsRoom(s: State, k: CallId, d: Depths, interval: Interval, top: nat, c: nat, recorded: nat)
    requires Allowed(s, Run(k)) && s.calls[k].pc.Saving?
    requires k in d.held && CallFits(s.calls[k], d.held[k], interval, top)
    requires |d.held| <= c && recorded <= Room(c, d.held, top, Min(d.stored, top))
    ensures recorded + One(Records(s, Run(k), interval)) <=
            Room(c, d.held - {k}, top, Min(d.held[k] + 1, top))
  {
    hide Held, OutcomeOf, Login, IsLocked, Room;
    var n := Min(d.stored, top);
    if d.held[k] + 1 <= top {
      SavingMakesRoom(c, d.held, k, top, n);
    } else {
      RoomUpTo(c, d.held, top, n, top);
      WithoutLeavesRoom(c, d.held, k, top, top);
    }
  }

  /** The failures recorded always fit in the room that the depths leave. */
  lemma StepKeepsRoom(s: State, action: Action, d: Depths, interval: Interval, top: nat, c: nat, recorded: nat)
    requires Allowed(s, action) && DepthsFit(s, d, interval, top) && |InFlight(s)| <= c
    requires recorded <= Room(c, d.held, top, Min(d.stored, top))
    ensures var next := NextDepths(s, d, action);
            recorded + One(Records(s, action, interval)) <= Room(c, next.held, top, Min(next.stored, top))
  {
    hide Held, OutcomeOf, Login, IsLocked, Room, CallFits, Min, AllSince;
    var next, n := NextDepths(s, d, action), Min(d.stored, top);
    if action.Run? && s.calls[action.call].pc.Saving? {
      assert CallFits(s.calls[action.call], d.held[action.call], interval, top);
      SaveKeepsRoom(s, action.call, d, interval, top, c, recorded);
    } else if action.Run? && s.calls[action.call].pc.Arrived? && NextPc(s, s.calls[action.call]).Hashing? {
      ReadLeavesRoom(c, d.held, action.call, d.stored, top);
    } else if !action.Begin? && action.call in d.held && action.call !in next.held {
      MinIsAtMost(d.stored, top);
      WithoutLeavesRoom(c, d.held, action.call, top, n);
    } else {
      assert next.held == d.held;
    }
  }

  lemma MinIsAtMost(a: nat, b: nat)
    ensures Min(a, b) <= b
  {
  }

  /** The clock of the run starts at `from`. */
  predicate Since(actions: seq<Action>, from: int)
  {
    forall action :: action in actions && action.Begin? ==> from <= action.attempt.now
  }

  lemma {:induction false} OverlapRun(start: State, actions: seq<Action>, c: nat, from: int, length: nat)
    returns (d: Depths)
    requires start.calls == map[] && ValidRun(start, actions) && Since(actions, from)
    requires AtMostInFlight(start, actions, c) && NobodyLogsIn(start, actions)
    ensures DepthsFit(After(start, actions), d, Interval(from, from + length), Top(length))
    ensures Recorded(start, actions, Interval(from, from + length)) <=
            Room(c, d.held, Top(length), Min(d.stored, Top(length)))
  {
    var interval := Interval(from, from + length);
    if |actions| == 0 {
      d := Depths(0, map[]);
    } else {
      hide DepthsFit, Room, Top;
      var s, last := After(start, Front(actions)), Last(actions);
      assert last in actions;
      var earlier := OverlapRun(start, Front(actions), c, from, length);
      d := NextDepthsOf(s, last, earlier, from, length);
      StepKeepsRoom(s, last, earlier, interval, Top(length), c, Recorded(start, Front(actions), interval));
    }
  }

  lemma NextDepthsOf(s: State, action: Action, d: Depths, from: int, length: nat) returns (next: Depths)
    requires Allowed(s, action) && !LogsIn(s, action) && DepthsFit(s, d, Interval(from, from + length), Top(length))
    requires action.Begin? ==> from <= action.attempt.now
    ensures d.held.Keys == InFlight(s) && next == NextDepths(s, d, action)
    ensures DepthsFit(Do(s, action), next, Interval(from, from + length), Top(length))
  {
    StepKeepsDepths(s, action, d, from, length);
    next := NextDepths(s, d, action);
  }

  /**
   * In every run in which at most `c` attempts are between their read and their save at a time, from any
   * row and without a full login: in the first `length` milliseconds at most Most(c, 5 + length / 15 min)
   * passwords are checked and wrong, besides those whose call died before saving.
   */
  lemma {:induction false} OverlappingAttemptsAreBounded(start: State, actions: seq<Action>, c: nat, from: int,
                                                         length: nat)
    requires start.calls == map[] && ValidRun(start, actions) && Since(actions, from)
    requires AtMostInFlight(start, actions, c) && NobodyLogsIn(start, actions)
    ensures var interval := Interval(from, from + length);
            Failures(start, actions, interval) <=
            Most(c, MAX_ATTEMPTS + length / LOCK_MS) + Lost(start, actions, interval)
    decreases |Pending(After(start, actions), Interval(from, from + length))|
  {
    var interval, s := Interval(from, from + length), After(start, actions);
    FailuresAreAccountedFor(start, actions, interval);
    if k :| k in Pending(s, interval) {
      var longer := SaveOne(start, actions, c, interval, k);
      OverlappingAttemptsAreBounded(start, longer, c, from, length);
    } else {
      assert Pending(s, interval) == {};
      var d := OverlapRun(start, actions, c, from, length);
      RoomIsBounded(c, d.held, Top(length), Min(d.stored, Top(length)));
    }
  }

  /** A call about to save can do so at once, which changes no count of wrong passwords. */
  lemma SaveOne(start: State, actions: seq<Action>, c: nat, interval: Interval, k: CallId) returns (longer: seq<Action>)
    requires ValidRun(start, actions) && Since(actions, interval.from)
    requires AtMostInFlight(start, actions, c) && NobodyLogsIn(start, actions)
    requires k in Pending(After(start, actions), interval)
    ensures ValidRun(start, longer) && Since(longer, interval.from)
    ensures AtMostInFlight(start, longer, c) && NobodyLogsIn(start, longer)
    ensures Failures(start, longer, interval) == Failures(start, actions, interval)
    ensures Lost(start, longer, interval) == Lost(start, actions, interval)
    ensures |Pending(After(start, longer), interval)| < |Pending(After(start, actions), interval)|
  {
    var s := After(start, actions);
    longer := actions + [Run(k)];
    assert Front(longer) == actions;
    PendingAfter(s, Run(k), interval);
    CardinalityGrows(InFlight(Do(s, Run(k))), InFlight(s));
  }

  // --- The bound is reached --------------------------------------------------------------------------

  function Wrong(now: int): Attempt
  {
    Attempt(now, false, "", false)
  }

  /** A run in the scope of the bound. */
  ghost predicate Bounded(start: State, actions: seq<Action>, c: nat, from: int): (bounded: bool)
    ensures bounded ==> ValidRun(start, actions)
  {
    ValidRun(start, actions) && AtMostInFlight(start, actions, c) && NobodyLogsIn(start, actions) &&
    Since(actions, from)
  }

  lemma {:induction false} UnusedId(used: set<CallId>) returns (k: CallId)
    ensures k !in used && forall j :: j in used ==> j < k
  {
    if used == {} {
      k := 0;
    } else {
      var j :| j in used;
      k := UnusedId(used - {j});
      assert used == (used - {j}) + {j};
      if k <= j {
        k := j + 1;
      }
    }
  }

  lemma Push(start: State, actions: seq<Action>, action: Action, c: nat, from: int) returns (longer: seq<Action>)
    requires Bounded(start, actions, c, from) && Allowed(After(start, actions), action)
    requires !LogsIn(After(start, actions), action) && (action.Begin? ==> from <= action.attempt.now)
    requires |InFlight(Do(After(start, actions), action))| <= c
    ensures Bounded(start, longer, c, from) && actions <= longer
    ensures After(start, longer) == Do(After(start, actions), action)
    ensures forall i: Interval ::
              Failures(start, longer, i) ==
              Failures(start, actions, i) +
              One(Fails(After(start, actions), action) &&
                  Counted(After(start, actions).calls[action.call].attempt, i)) &&
              Lost(start, longer, i) == Lost(start, actions, i) + One(Loses(After(start, actions), action, i))
  {
    longer := actions + [action];
    assert Front(longer) == actions && Last(longer) == action;
  }

  /** An attempt arrives and reads an unlocked row. */
  lemma Enter(start: State, actions: seq<Action>, c: nat, now: int) returns (longer: seq<Action>, k: CallId)
    requires Bounded(start, actions, c, now) && !IsLocked(After(start, actions).row, now)
    requires |InFlight(After(start, actions))| < c
    ensures Bounded(start, longer, c, now) && k !in After(start, actions).calls
    ensures var s := After(start, actions);
            After(start, longer) == s.(calls := s.calls[k := Call(Wrong(now), Hashing(s.row))]) &&
            InFlight(After(start, longer)) == InFlight(s) + {k} && k !in InFlight(s)
    ensures Failures(start, longer, Interval(now, now)) == Failures(start, actions, Interval(now, now))
    ensures Lost(start, longer, Interval(now, now)) == Lost(start, actions, Interval(now, now))
  {
    hide Bounded, After, Failures, Lost;
    var s := After(start, actions);
    k := UnusedId(s.calls.Keys);
    var begun := Do(s, Begin(k, Wrong(now)));
    assert InFlight(begun) == InFlight(s);
    assert InFlight(Do(begun, Run(k))) == InFlight(s) + {k};
    longer := Push(start, actions, Begin(k, Wrong(now)), c, now);
    longer := Push(start, longer, Run(k), c, now);
    assert After(start, longer).calls == s.calls[k := Call(Wrong(now), Hashing(s.row))];
  }

  /** It finds its password wrong and saves the row it read, one failure later. */
  lemma Leave(start: State, actions: seq<Action>, c: nat, now: int, k: CallId, copy: Account)
    returns (longer: seq<Action>)
    requires Bounded(start, actions, c, now) && !IsLocked(copy, now)
    requires k in After(start, actions).calls && After(start, actions).calls[k] == Call(Wrong(now), Hashing(copy))
    ensures Bounded(start, longer, c, now) && actions <= longer
    ensures After(start, longer) ==
            State(RecordFailedLogin(copy, MAX_ATTEMPTS, LOCK_MS, now),
                  After(start, actions).calls[k := Call(Wrong(now), Done(InvalidCredentials))])
    ensures InFlight(After(start, longer)) == InFlight(After(start, actions)) - {k}
    ensures Failures(start, longer, Interval(now, now)) == Failures(start, actions, Interval(now, now)) + 1
    ensures Lost(start, longer, Interval(now, now)) == Lost(start, actions, Interval(now, now))
  {
    var s := After(start, actions);
    var checked := Do(s, Run(k));
    assert |InFlight(s)| <= c;
    assert InFlight(checked) == InFlight(s);
    CardinalityGrows(InFlight(Do(checked, Run(k))), InFlight(s));
    hide Bounded, After, Failures, Lost, IsLocked;
    longer := Push(start, actions, Run(k), c, now);
    longer := Push(start, longer, Run(k), c, now);
    assert After(start, longer).calls == s.calls[k := Call(Wrong(now), Done(InvalidCredentials))];
    assert InFlight(After(start, longer)) == InFlight(s) - {k};
  }

  /** Calls in flight before are untouched, and none is added. */
  predicate SameInFlight(s: State, after: State)
  {
    InFlight(after) == InFlight(s) && forall k :: k in s.calls ==> k in after.calls && after.calls[k] == s.calls[k]
  }

  /** One call keeps its copy while the others use up their turns; its save then gives all of them another. */
  lemma {:induction false} Exhaust(start: State, actions: seq<Action>, limit: nat, c: nat, m: nat, now: int)
    returns (longer: seq<Action>)
    requires Bounded(start, actions, limit, now) && m <= MAX_ATTEMPTS
    requires |InFlight(After(start, actions))| + c <= limit
    requires m < MAX_ATTEMPTS ==>
               FailureCount(After(start, actions).row) == m && !IsLocked(After(start, actions).row, now)
    ensures Bounded(start, longer, limit, now) && SameInFlight(After(start, actions), After(start, longer))
    ensures Failures(start, longer, Interval(now, now)) ==
            Failures(start, actions, Interval(now, now)) + Most(c, MAX_ATTEMPTS - m)
    ensures Lost(start, longer, Interval(now, now)) == Lost(start, actions, Interval(now, now))
    decreases c + MAX_ATTEMPTS - m
  {
    hide Bounded, InFlight, RecordFailedLogin, FailureCount, IsLocked, After, Failures, Lost, Wrong;
    if c == 0 || m == MAX_ATTEMPTS {
      longer := actions;
    } else {
      var s := After(start, actions);
      var entered, k := Enter(start, actions, limit, now);
      var others := Exhaust(start, entered, limit, c - 1, m, now);
      var left := Leave(start, others, limit, now, k, s.row);
      OneDeeper(s.row, m, now);
      assert InFlight(After(start, left)) == InFlight(s);
      longer := Exhaust(start, left, limit, c, m + 1, now);
    }
  }

  lemma OneDeeper(row: Account, m: nat, now: int)
    requires FailureCount(row) == m && !IsLocked(row, now)
    ensures var after := RecordFailedLogin(row, MAX_ATTEMPTS, LOCK_MS, now);
            FailureCount(after) == m + 1 && (m + 1 < MAX_ATTEMPTS ==> !IsLocked(after, now))
  {
  }

  const NEW_ACCOUNT := Account("hash", Some(0), None, None, true, false, "", 0)

  /** With `c` attempts in flight Most(c, 5) wrong passwords are checked at one instant. */
  lemma OverlapBoundIsReached(c: nat, now: int) returns (actions: seq<Action>)
    ensures var start := State(NEW_ACCOUNT, map[]);
            Bounded(start, actions, c, now) && Lost(start, actions, Interval(now, now)) == 0 &&
            Failures(start, actions, Interval(now, now)) == Most(c, MAX_ATTEMPTS)
  {
    var start := State(NEW_ACCOUNT, map[]);
    assert InFlight(start) == {};
    actions := Exhaust(start, [], c, c, 0, now);
  }

  /** `n` attempts that all read before any saves: each is checked, and one failure is left on the row. */
  lemma {:induction false} AllAtOnce(start: State, actions: seq<Action>, limit: nat, n: nat, now: int)
    returns (longer: seq<Action>)
    requires Bounded(start, actions, limit, now) && |InFlight(After(start, actions))| + n <= limit
    requires !IsLocked(After(start, actions).row, now)
    ensures Bounded(start, longer, limit, now) && SameInFlight(After(start, actions), After(start, longer))
    ensures Failures(start, longer, Interval(now, now)) == Failures(start, actions, Interval(now, now)) + n
    ensures Lost(start, longer, Interval(now, now)) == Lost(start, actions, Interval(now, now))
    ensures After(start, longer).row ==
            if n == 0 then After(start, actions).row
            else RecordFailedLogin(After(start, actions).row, MAX_ATTEMPTS, LOCK_MS, now)
    decreases n
  {
    hide Bounded, InFlight, RecordFailedLogin, IsLocked, After, Failures, Lost, Wrong;
    if n == 0 {
      longer := actions;
    } else {
      var s := After(start, actions);
      var entered, k := Enter(start, actions, limit, now);
      var others := AllAtOnce(start, entered, limit, n - 1, now);
      longer := Leave(start, others, limit, now, k, s.row);
      assert InFlight(After(start, longer)) == InFlight(s);
    }
  }

  /** Six wrong passwords at one instant are all checked, and the row counts one of them and is not locked. */
  lemma SixAtOnceCounterexample(now: int) returns (actions: seq<Action>)
    ensures var start := State(NEW_ACCOUNT, map[]);
            Bounded(start, actions, 6, now) && Lost(start, actions, Interval(now, now)) == 0 &&
            Failures(start, actions, Interval(now, now)) == 6 > MAX_ATTEMPTS &&
            After(start, actions).row.failedLoginCount == Some(1) && !IsLocked(After(start, actions).row, now)
  {
    var start := State(NEW_ACCOUNT, map[]);
    assert InFlight(start) == {};
    actions := AllAtOnce(start, [], 6, 6, now);
  }

  /** A slow save takes away the lock that five other failures have set meanwhile. */
  lemma SlowSaveUnlocks(now: int) returns (locked: seq<Action>, unlocked: seq<Action>)
    ensures var start := State(NEW_ACCOUNT, map[]);
            Bounded(start, unlocked, 2, now) && locked <= unlocked && ValidRun(start, locked) &&
            IsLocked(After(start, locked).row, now) && !IsLocked(After(start, unlocked).row, now)
  {
    var start := State(NEW_ACCOUNT, map[]);
    assert InFlight(start) == {};
    var slow: CallId;
    locked, slow := Enter(start, [], 2, now);
    var hashing := Call(Wrong(now), Hashing(NEW_ACCOUNT));
    for i := 0 to MAX_ATTEMPTS
      invariant Bounded(start, locked, 2, now)
      invariant slow in After(start, locked).calls && After(start, locked).calls[slow] == hashing
      invariant InFlight(After(start, locked)) == {slow}
      invariant FailureCount(After(start, locked).row) == i
      invariant IsLocked(After(start, locked).row, now) <==> i == MAX_ATTEMPTS
    {
      hide Bounded;
      var s := After(start, locked);
      locked := AllAtOnce(start, locked, 2, 1, now);
    }
    unlocked := Leave(start, locked, 2, now, slow, NEW_ACCOUNT);
  }
}
