/** `User` and `LoginUserUseCase`: an account is read, changed in memory and saved back. */
module LoginUser {

  import opened Wrappers
  import opened LoginLockout

  class User {
    var passwordHash: string
    var failedLoginCount: Option<nat>
    var lockUntil: Option<int>
    var lastLoginAt: Option<int>
    var emailVerified: bool
    var twoFactorEnabled: bool
    var twoFactorSecret: string
    var updatedAt: int

    constructor (row: Account)
      ensures Row() == row
    {
      passwordHash, failedLoginCount, lockUntil := row.passwordHash, row.failedLoginCount, row.lockUntil;
      lastLoginAt, emailVerified, updatedAt := row.lastLoginAt, row.emailVerified, row.updatedAt;
      twoFactorEnabled, twoFactorSecret := row.twoFactorEnabled, row.twoFactorSecret;
    }

    function Row(): Account
      reads this
    {
      Account(passwordHash, failedLoginCount, lockUntil, lastLoginAt, emailVerified, twoFactorEnabled,
              twoFactorSecret, updatedAt)
    }

    method Touch(at: int)
      modifies this`updatedAt
      ensures updatedAt == at
    {
      updatedAt := at;
    }

    predicate Locked(at: int)
      reads this
      ensures Locked(at) == IsLocked(Row(), at)
    {
      match lockUntil
      case Some(until) => until > at
      case None => false
    }

    method RecordFailure(maxAttempts: int, lockMs: int, at: int)
      modifies this
      ensures Row() == RecordFailedLogin(old(Row()), maxAttempts, lockMs, at)
    {
      var current := if failedLoginCount.Some? then failedLoginCount.value else 0;
      var next := current + 1;
      failedLoginCount := Some(next);
      if next >= maxAttempts {
        lockUntil := Some(at + lockMs);
      }
      Touch(at);
    }

    /** A full login forgets the failures and the lock. */
    method MarkLoggedIn(at: int)
      modifies this
      ensures Row() == MarkLogin(old(Row()), at)
      ensures FailureCount(Row()) == 0 && forall t :: !IsLocked(Row(), t)
    {
      lastLoginAt := Some(at);
      failedLoginCount := Some(0);
      lockUntil := None;
      Touch(at);
    }

    method SetPassword(hash: string, at: int)
      modifies this
      ensures Row() == ChangePassword(old(Row()), hash, at)
      ensures FailureCount(Row()) == 0 && forall t :: !IsLocked(Row(), t)
    {
      passwordHash := hash;
      failedLoginCount := Some(0);
      lockUntil := None;
      Touch(at);
    }
  }

  class UseCase {
    var rows: map<string, Account>

    constructor (rows: map<string, Account>)
      ensures this.rows == rows
    {
      this.rows := rows;
    }

    /** An unknown email gives the answer of a wrong password; only that account's row can change. */
    method Execute(email: string, attempt: Attempt) returns (outcome: Outcome)
      modifies this
      ensures outcome == if email in old(rows) then OutcomeOf(old(rows)[email], attempt) else InvalidCredentials
      ensures rows == if email in old(rows) then old(rows)[email := Login(old(rows)[email], attempt)] else old(rows)
      ensures outcome.LoggedIn? <==>
                email in old(rows) &&
                var row := old(rows)[email];
                !(row.lockUntil.Some? && attempt.now < row.lockUntil.value) && attempt.passwordMatches &&
                row.emailVerified &&
                (row.twoFactorEnabled ==> attempt.code != "" && row.twoFactorSecret != "" && attempt.codeMatches)
      ensures outcome.LoggedIn? ==>
                rows == old(rows)[email := old(rows)[email].(lastLoginAt := Some(attempt.now), lockUntil := None,
                                                             failedLoginCount := Some(0), updatedAt := attempt.now)]
      ensures outcome.InvalidCredentials? && email in old(rows) ==>
                email in rows && rows[email].failedLoginCount.Some? &&
                rows[email].failedLoginCount.value == FailureCount(old(rows)[email]) + 1 &&
                rows[email].lockUntil == (if rows[email].failedLoginCount.value >= 5
                                          then Some(attempt.now + 900_000) else old(rows)[email].lockUntil)
      ensures !outcome.LoggedIn? && !outcome.InvalidCredentials? ==> rows == old(rows)
    {
      if email !in rows {
        return InvalidCredentials;
      }
      var user := new User(rows[email]);
      if user.Locked(attempt.now) {
        return AccountLocked;
      }
      if !attempt.passwordMatches {
        user.RecordFailure(MAX_ATTEMPTS, LOCK_MS, attempt.now);
        rows := rows[email := user.Row()];
        return InvalidCredentials;
      }
      if !user.emailVerified {
        return EmailNotVerified;
      }
      if user.twoFactorEnabled {
        if attempt.code == "" {
          return TwoFactorRequired;
        }
        if user.twoFactorSecret == "" {
          return TwoFactorNotConfigured;
        }
        if !attempt.codeMatches {
          return InvalidTwoFactorCode;
        }
      }
      user.MarkLoggedIn(attempt.now);
      rows := rows[email := user.Row()];
      return LoggedIn;
    }
  }
}
