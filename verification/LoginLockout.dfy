/** The lock on an account after failed passwords: the rules on values, then any run of attempts. */
module LoginLockout {

  import opened Wrappers

  const MAX_ATTEMPTS := 5
  const LOCK_MS := 15 * 60 * 1000

  /** The columns that logging in reads or writes; a missing secret is the empty string. */
  datatype Account = Account(
    passwordHash: string,
    failedLoginCount: Option<nat>,
    lockUntil: Option<int>,
    lastLoginAt: Option<int>,
    emailVerified: bool,
    twoFactorEnabled: bool,
    twoFactorSecret: string,
    updatedAt: int)

  /** What the hasher and the second factor answer is part of the attempt. */
  datatype Attempt = Attempt(now: int, passwordMatches: bool, code: string, codeMatches: bool)

  datatype Outcome =
    | LoggedIn
    | InvalidCredentials
    | AccountLocked
    | EmailNotVerified
    | TwoFactorRequired
    | TwoFactorNotConfigured
    | InvalidTwoFactorCode

  function FailureCount(account: Account): nat
  {
    if account.failedLoginCount.Some? then account.failedLoginCount.value else 0
  }

  predicate IsLocked(account: Account, at: int)
  {
    account.lockUntil.Some? && account.lockUntil.value > at
  }

  function RecordFailedLogin(account: Account, maxAttempts: int, lockMs: int, at: int): Account
  {
    var next := FailureCount(account) + 1;
    account.(failedLoginCount := Some(next),
             lockUntil := if next >= maxAttempts then Some(at + lockMs) else account.lockUntil,
             updatedAt := at)
  }

  function MarkLogin(account: Account, at: int): Account
  {
    account.(lastLoginAt := Some(at), failedLoginCount := Some(0), lockUntil := None, updatedAt := at)
  }

  function ChangePassword(account: Account, passwordHash: string, at: int): Account
  {
    account.(passwordHash := passwordHash, failedLoginCount := Some(0), lockUntil := None, updatedAt := at)
  }

  function OutcomeOf(account: Account, attempt: Attempt): Outcome
  {
    if IsLocked(account, attempt.now) then AccountLocked
    else if !attempt.passwordMatches then InvalidCredentials
    else if !account.emailVerified then EmailNotVerified
    else if !account.twoFactorEnabled then LoggedIn
    else if attempt.code == "" then TwoFactorRequired
    else if account.twoFactorSecret == "" then TwoFactorNotConfigured
    else if !attempt.codeMatches then InvalidTwoFactorCode
    else LoggedIn
  }

  function Login(account: Account, attempt: Attempt): Account
  {
    match OutcomeOf(account, attempt)
    case InvalidCredentials => RecordFailedLogin(account, MAX_ATTEMPTS, LOCK_MS, attempt.now)
    case LoggedIn => MarkLogin(account, attempt.now)
    case _ => account
  }

  /** Everything that must be right for a full login. */
  predicate MayEnter(account: Account, attempt: Attempt)
  {
    !IsLocked(account, attempt.now) && attempt.passwordMatches && account.emailVerified &&
    (account.twoFactorEnabled ==> attempt.code != "" && account.twoFactorSecret != "" && attempt.codeMatches)
  }

  /** A login succeeds exactly when everything is right, and each refusal has its own condition. */
  lemma OutcomeIff(account: Account, attempt: Attempt)
    ensures var outcome := OutcomeOf(account, attempt);
            var locked := account.lockUntil.Some? && attempt.now < account.lockUntil.value;
            var known := !locked && attempt.passwordMatches;
            var second := known && account.emailVerified && account.twoFactorEnabled;
            (outcome.LoggedIn? <==>
               known && account.emailVerified &&
               (account.twoFactorEnabled ==>
                  attempt.code != "" && account.twoFactorSecret != "" && attempt.codeMatches)) &&
            (outcome.LoggedIn? <==> MayEnter(account, attempt)) &&
            (outcome.AccountLocked? <==> locked) &&
            (outcome.InvalidCredentials? <==> !locked && !attempt.passwordMatches) &&
            (outcome.EmailNotVerified? <==> known && !account.emailVerified) &&
            (outcome.TwoFactorRequired? <==> second && attempt.code == "") &&
            (outcome.TwoFactorNotConfigured? <==> second && attempt.code != "" && account.twoFactorSecret == "") &&
            (outcome.InvalidTwoFactorCode? <==>
               second && attempt.code != "" && account.twoFactorSecret != "" && !attempt.codeMatches)
  {
  }

  /** A full login forgets failures and lock, a wrong password counts one more and locks from the fifth on. */
  lemma LoginEffect(account: Account, attempt: Attempt)
    ensures var outcome, after := OutcomeOf(account, attempt), Login(account, attempt);
            var next := 1 + if account.failedLoginCount.Some? then account.failedLoginCount.value else 0;
            after == match outcome
                     case LoggedIn =>
                       Account(account.passwordHash, Some(0), None, Some(attempt.now), account.emailVerified,
                               account.twoFactorEnabled, account.twoFactorSecret, attempt.now)
                     case InvalidCredentials =>
                       Account(account.passwordHash, Some(next),
                               if next >= 5 then Some(attempt.now + 900_000) else account.lockUntil,
                               account.lastLoginAt, account.emailVerified, account.twoFactorEnabled,
                               account.twoFactorSecret, attempt.now)
                     case _ => account
  {
  }

  /** A new password changes its own column, forgets failures and lock, and nothing else but the time stamp. */
  lemma NewPasswordEffect(account: Account, hash: string, at: int)
    ensures ChangePassword(account, hash, at) ==
            Account(hash, Some(0), None, account.lastLoginAt, account.emailVerified, account.twoFactorEnabled,
                    account.twoFactorSecret, at)
  {
  }

  // --- Runs ----------------------------------------------------------------------------------------

  function AfterAll(start: Account, attempts: seq<Attempt>): Account
  {
    if attempts == [] then start
    else Login(AfterAll(start, attempts[..|attempts| - 1]), attempts[|attempts| - 1])
  }

  /** The outcome of attempt `i` of a run. */
  function OutcomeAt(start: Account, attempts: seq<Attempt>, i: nat): Outcome
    requires i < |attempts|
  {
    OutcomeOf(AfterAll(start, attempts[..i]), attempts[i])
  }

  predicate NoFullLogin(start: Account, attempts: seq<Attempt>)
  {
    forall i :: 0 <= i < |attempts| ==> OutcomeAt(start, attempts, i) != LoggedIn
  }

  /** Passwords that were checked and wrong, between two moments, both included. */
  function WrongPasswords(start: Account, attempts: seq<Attempt>, from: int, to: int): nat
  {
    if attempts == [] then 0
    else
      var earlier, last := attempts[..|attempts| - 1], attempts[|attempts| - 1];
      WrongPasswords(start, earlier, from, to) +
      if from <= last.now <= to && OutcomeOf(AfterAll(start, earlier), last).InvalidCredentials? then 1 else 0
  }

  /** What `k` failures since `from` leave behind: a count of at least `k`, and a lock after the fifth. */
  predicate Held(account: Account, from: int, k: nat)
  {
    k <= FailureCount(account) &&
    (k >= MAX_ATTEMPTS ==> account.lockUntil.Some? && account.lockUntil.value >= from + (k - 4) * LOCK_MS)
  }

  lemma LoginHolds(account: Account, attempt: Attempt, from: int, k: nat)
    requires OutcomeOf(account, attempt) != LoggedIn && Held(account, from, k)
    ensures Held(Login(account, attempt), from, k)
    ensures from <= attempt.now && OutcomeOf(account, attempt).InvalidCredentials? ==>
              Held(Login(account, attempt), from, k + 1)
  {
  }

  lemma {:induction false} RunHolds(start: Account, attempts: seq<Attempt>, from: int, to: int)
    requires NoFullLogin(start, attempts)
    ensures Held(AfterAll(start, attempts), from, WrongPasswords(start, attempts, from, to))
  {
    if attempts != [] {
      var earlier, last := attempts[..|attempts| - 1], attempts[|attempts| - 1];
      FewerAttempts(start, attempts);
      RunHolds(start, earlier, from, to);
      LoginHolds(AfterAll(start, earlier), last, from, WrongPasswords(start, earlier, from, to));
    }
  }

  lemma FewerAttempts(start: Account, attempts: seq<Attempt>)
    requires attempts != [] && NoFullLogin(start, attempts)
    ensures var earlier, last := attempts[..|attempts| - 1], attempts[|attempts| - 1];
            NoFullLogin(start, earlier) && OutcomeOf(AfterAll(start, earlier), last) != LoggedIn
  {
    hide AfterAll, OutcomeOf;
    var earlier := attempts[..|attempts| - 1];
    assert OutcomeAt(start, attempts, |earlier|) != LoggedIn;
    forall i | 0 <= i < |earlier| ensures OutcomeAt(start, earlier, i) != LoggedIn {
      assert earlier[..i] == attempts[..i] && OutcomeAt(start, attempts, i) != LoggedIn;
    }
  }

  /** At most five, and one more for every full lock that fits between the first and the last. */
  lemma LastFailureIsLate(account: Account, attempt: Attempt, from: int, k: nat)
    requires Held(account, from, k) && from <= attempt.now && OutcomeOf(account, attempt).InvalidCredentials?
    ensures k + 1 <= MAX_ATTEMPTS + (attempt.now - from) / LOCK_MS
  {
    if k >= MAX_ATTEMPTS {
      assert (k - 4) * LOCK_MS <= attempt.now - from;
    }
  }

  lemma MoreLocksFit(shorter: int, longer: int)
    requires shorter <= longer
    ensures shorter / LOCK_MS <= longer / LOCK_MS
  {
  }

  /**
   * From any state of the account, for attempts that run one after another and of which none completes a
   * login, whatever their clock readings: in any `length` milliseconds, both ends included, at most
   * 5 + length / 15 min passwords are checked and wrong.
   */
  lemma {:induction false} FailuresAreBounded(start: Account, attempts: seq<Attempt>, from: int, length: nat)
    requires NoFullLogin(start, attempts)
    ensures WrongPasswords(start, attempts, from, from + length) <= MAX_ATTEMPTS + length / LOCK_MS
  {
    hide OutcomeOf, AfterAll, Held, NoFullLogin;
    if attempts != [] {
      var earlier, last := attempts[..|attempts| - 1], attempts[|attempts| - 1];
      FewerAttempts(start, attempts);
      FailuresAreBounded(start, earlier, from, length);
      if from <= last.now <= from + length && OutcomeOf(AfterAll(start, earlier), last).InvalidCredentials? {
        RunHolds(start, earlier, from, from + length);
        LastFailureIsLate(AfterAll(start, earlier), last, from, WrongPasswords(start, earlier, from, from + length));
        MoreLocksFit(last.now - from, length);
      }
    }
  }

  /** A fifth failure locks the account for fifteen minutes, and a full login or a new password unlocks it. */
  lemma LockedIff(account: Account, at: int, t: int, hash: string)
    ensures var after := RecordFailedLogin(account, MAX_ATTEMPTS, LOCK_MS, at);
            if FailureCount(account) >= MAX_ATTEMPTS - 1 then IsLocked(after, t) <==> t < at + LOCK_MS
            else IsLocked(after, t) <==> IsLocked(account, t)
    ensures !IsLocked(MarkLogin(account, at), t) && !IsLocked(ChangePassword(account, hash, at), t)
  {
  }

  // --- The bound is reached --------------------------------------------------------------------------

  function Patient(n: nat): (attempts: seq<Attempt>)
    ensures |attempts| == n
    ensures forall i :: 0 <= i < n ==> attempts[i] == Attempt(if i < 5 then 0 else (i - 4) * LOCK_MS, false, "", false)
  {
    if n == 0 then []
    else Patient(n - 1) + [Attempt(if n - 1 < 5 then 0 else (n - 5) * LOCK_MS, false, "", false)]
  }

  /** Someone who waits for each lock to end is checked five times at once and then once every 15 min. */
  lemma {:induction false} BoundIsReached(start: Account, n: nat, to: int)
    requires start.failedLoginCount == Some(0) && start.lockUntil == None
    requires n >= 5 ==> to >= (n - 5) * LOCK_MS
    requires to >= 0
    ensures WrongPasswords(start, Patient(n), 0, to) == n
    ensures FailureCount(AfterAll(start, Patient(n))) == n
    ensures AfterAll(start, Patient(n)).lockUntil == if n < 5 then None else Some((n - 4) * LOCK_MS)
  {
    if n > 0 {
      var attempts := Patient(n);
      assert attempts[..n - 1] == Patient(n - 1);
      BoundIsReached(start, n - 1, to);
    }
  }
}
