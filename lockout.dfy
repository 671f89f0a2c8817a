/** The login decision for a known user, as a function of the user's security
    columns, whether the password verified, and the clock; and the bounded,
    newest-first password history kept by password reset. */
module Lockout {
  import opened Common
  import opened Text
  import opened Users

  /** How long a lock lasts. */
  const LockDuration: int := 30 * Minute

  /** Hashes kept in `passwordHistory`. */
  const HistoryLimit: nat := 5

  const InvalidCredentials: string := "Invalid credentials"
  const LockedNow: string := "Account locked due to multiple failed attempts"
  const AccountSuspended: string := "Account is suspended"
  const NotActivated: string := "Account is not activated"

  /** A clock value as text; the source renders it as an ISO-8601 date. */
  function TimeText(t: Time): string
  {
    if t < 0 then "-" + NatToString(-t) else NatToString(t)
  }

  function LockedUntilMessage(until: Time): string
  {
    "Account locked until " + TimeText(until)
  }

  datatype Verdict = Granted | Rejected(error: HttpError)

  /** Which audit entry a login attempt writes. */
  datatype LoginAudit = Silent | AccountLocked | LoginFailed | UserLogin

  datatype Attempt = Attempt(state: SecurityState, verdict: Verdict, audit: LoginAudit)

  /** Locked, with a lock time still in the future. */
  predicate LockInForce(s: SecurityState, now: Time)
  {
    s.status == Locked && s.accountLockedUntil.Some? && s.accountLockedUntil.value > now
  }

  /** The lazy unlock of an account whose lock has run out (or has no end). */
  function Unlock(s: SecurityState): SecurityState
  {
    if s.status == Locked then s.(status := Active, failedLoginAttempts := 0, accountLockedUntil := None) else s
  }

  /** `login` after the user was found: the status checks, the password check,
      the failure counter and the lock. */
  function LoginStep(s: SecurityState, passwordOk: bool, now: Time): Attempt
  {
    if LockInForce(s, now) then
      Attempt(s, Rejected(Unauthorized(LockedUntilMessage(s.accountLockedUntil.value))), Silent)
    else
      var u := Unlock(s);
      if u.status == Suspended then Attempt(u, Rejected(Unauthorized(AccountSuspended)), Silent)
      else if u.status == Pending then Attempt(u, Rejected(Unauthorized(NotActivated)), Silent)
      else if !passwordOk then
        var failed := u.failedLoginAttempts + 1;
        if failed >= MaxFailedAttempts then
          Attempt(u.(failedLoginAttempts := failed, status := Locked,
                     accountLockedUntil := Some(now + LockDuration), lockoutCount24h := u.lockoutCount24h + 1),
                  Rejected(Unauthorized(LockedNow)), AccountLocked)
        else
          Attempt(u.(failedLoginAttempts := failed), Rejected(Unauthorized(InvalidCredentials)), LoginFailed)
      else
        Attempt(u.(failedLoginAttempts := 0, lastLogin := Some(now)), Granted, UserLogin)
  }

  /** A lock still in force rejects with the unlock time, changes nothing, and
      answers the same whether or not the password is right. */
  lemma LockInForceIgnoresPassword(s: SecurityState, now: Time)
    requires LockInForce(s, now)
    ensures LoginStep(s, true, now) == LoginStep(s, false, now)
    ensures LoginStep(s, true, now)
              == Attempt(s, Rejected(Unauthorized(LockedUntilMessage(s.accountLockedUntil.value))), Silent)
  {
  }

  /** Suspended and pending accounts are turned away before the password is
      looked at, and nothing about them changes. */
  lemma InactiveAccountsIgnorePassword(s: SecurityState, now: Time)
    requires s.status == Suspended || s.status == Pending
    ensures LoginStep(s, true, now) == LoginStep(s, false, now)
    ensures LoginStep(s, true, now).state == s && LoginStep(s, true, now).audit == Silent
    ensures LoginStep(s, true, now).verdict
              == Rejected(Unauthorized(if s.status == Suspended then AccountSuspended else NotActivated))
  {
  }

  /** A lock that has run out, or has no end, is lifted first: the attempt is
      then judged as for an active account with no failures. */
  lemma ExpiredLockIsLiftedFirst(s: SecurityState, passwordOk: bool, now: Time)
    requires s.status == Locked && !LockInForce(s, now)
    ensures LoginStep(s, passwordOk, now)
              == LoginStep(s.(status := Active, failedLoginAttempts := 0, accountLockedUntil := None), passwordOk, now)
  {
  }

  /** A wrong password on an active account adds exactly one failure; the fifth
      locks the account for thirty minutes and counts one more lockout. */
  lemma WrongPassword(s: SecurityState, now: Time)
    requires s.status == Active
    ensures var a := LoginStep(s, false, now);
            a.state.failedLoginAttempts == s.failedLoginAttempts + 1
            && a.verdict.Rejected?
            && (a.state.status == Locked <==> s.failedLoginAttempts + 1 >= MaxFailedAttempts)
            && (a.state.status == Locked ==>
                  a.state.accountLockedUntil == Some(now + LockDuration)
                  && a.state.lockoutCount24h == s.lockoutCount24h + 1
                  && a.verdict == Rejected(Unauthorized(LockedNow)) && a.audit == AccountLocked)
            && (a.state.status == Active ==>
                  a.state == s.(failedLoginAttempts := s.failedLoginAttempts + 1)
                  && a.verdict == Rejected(Unauthorized(InvalidCredentials)) && a.audit == LoginFailed)
  {
  }

  /** A right password on an active account logs in, clears the failures and
      records the time. */
  lemma RightPassword(s: SecurityState, now: Time)
    requires s.status == Active
    ensures LoginStep(s, true, now) == Attempt(s.(failedLoginAttempts := 0, lastLogin := Some(now)), Granted, UserLogin)
  {
  }

  /** Every attempt keeps a user's stored invariants (a locked account always
      has a lock time; the history is not touched). */
  lemma LoginStepKeepsValid(s: SecurityState, passwordOk: bool, now: Time)
    requires s.Valid()
    ensures LoginStep(s, passwordOk, now).state.Valid()
    ensures LoginStep(s, passwordOk, now).state.password == s.password
    ensures LoginStep(s, passwordOk, now).state.passwordHistory == s.passwordHistory
  {
  }

  /** The only way into `Granted` is a verified password. */
  lemma GrantedNeedsPassword(s: SecurityState, now: Time)
    ensures LoginStep(s, false, now).verdict.Rejected?
  {
  }

  /** Wrong passwords at the given times, one after another. */
  function Failures(s: SecurityState, times: seq<Time>): SecurityState
    decreases |times|
  {
    if |times| == 0 then s
    else Failures(LoginStep(s, false, times[0]).state, times[1..])
  }

  /** Five wrong passwords in a row on a fresh active account lock it until
      thirty minutes after the fifth; before then even the right password is
      refused with the unlock time, and from then on the right password logs
      in with the failure count back at zero. */
  lemma {:induction false} FiveStrikes(s: SecurityState, times: seq<Time>, early: Time, late: Time)
    requires s.status == Active && s.failedLoginAttempts == 0
    requires |times| == 5
    requires early < times[4] + LockDuration <= late
    ensures var locked := Failures(s, times);
            locked.status == Locked
            && locked.accountLockedUntil == Some(times[4] + LockDuration)
            && locked.lockoutCount24h == s.lockoutCount24h + 1
            && LoginStep(locked, true, early).verdict
                 == Rejected(Unauthorized(LockedUntilMessage(times[4] + LockDuration)))
            && LoginStep(locked, true, early).state == locked
            && LoginStep(locked, true, late).verdict == Granted
            && LoginStep(locked, true, late).state.failedLoginAttempts == 0
  {
    var s1 := LoginStep(s, false, times[0]).state;
    var s2 := LoginStep(s1, false, times[1]).state;
    var s3 := LoginStep(s2, false, times[2]).state;
    var s4 := LoginStep(s3, false, times[3]).state;
    var s5 := LoginStep(s4, false, times[4]).state;
    assert s4.status == Active && s4.failedLoginAttempts == 4;
    calc {
      Failures(s, times);
      Failures(s1, times[1..]);
      { assert times[1..][1..] == times[2..]; }
      Failures(s2, times[2..]);
      { assert times[2..][1..] == times[3..]; }
      Failures(s3, times[3..]);
      { assert times[3..][1..] == times[4..]; }
      Failures(s4, times[4..]);
      { assert times[4..][1..] == []; }
      s5;
    }
  }

  /** A rejected login never reveals, through its message, whether the password
      was right, except through the lock message of the fifth failure. Unknown
      email and a plain wrong password share one message. */
  lemma WrongPasswordLooksLikeUnknownEmail(s: SecurityState, now: Time)
    requires s.status == Active && s.failedLoginAttempts + 1 < MaxFailedAttempts
    ensures LoginStep(s, false, now).verdict == Rejected(Unauthorized(InvalidCredentials))
  {
  }

  // ---------------------------------------------------------------------------
  // Password history

  /** `history.unshift(current); if (history.length > 5) history.pop()`. */
  function PushHistory(history: seq<string>, current: string): (r: seq<string>)
    ensures |history| <= HistoryLimit ==> |r| == Min(|history| + 1, HistoryLimit)
    ensures 0 < |r| <= |history| + 1 && r[0] == current
    ensures r[1..] == history[..|r| - 1]
  {
    var h := [current] + history;
    if |h| > HistoryLimit then h[..|h| - 1] else h
  }

  /** The newest of `pushed` first, as pushing them one by one leaves them. */
  function Reversed(s: seq<string>): (r: seq<string>)
    ensures |r| == |s|
    decreases |s|
  {
    if |s| == 0 then [] else Reversed(s[1..]) + [s[0]]
  }

  function PushAll(history: seq<string>, pushed: seq<string>): seq<string>
    decreases |pushed|
  {
    if |pushed| == 0 then history else PushAll(PushHistory(history, pushed[0]), pushed[1..])
  }

  /** After any number of resets the history holds exactly the five most
      recent replaced hashes, newest first: older ones are forgotten. */
  lemma {:induction false} PushAllKeepsNewest(history: seq<string>, pushed: seq<string>)
    requires |history| <= HistoryLimit
    ensures PushAll(history, pushed)
              == (Reversed(pushed) + history)[..Min(|pushed| + |history|, HistoryLimit)]
    decreases |pushed|
  {
    if |pushed| > 0 {
      var h := PushHistory(history, pushed[0]);
      PushAllKeepsNewest(h, pushed[1..]);
      var n := Min(|pushed| + |history|, HistoryLimit);
      var m := Min(|pushed| - 1 + |h|, HistoryLimit);
      assert h == ([pushed[0]] + history)[..|h|];
      assert Reversed(pushed) == Reversed(pushed[1..]) + [pushed[0]];
      assert m == n;
      calc {
        (Reversed(pushed[1..]) + h)[..m];
        { assert forall k :: 0 <= k < m ==> (Reversed(pushed[1..]) + h)[k] == (Reversed(pushed) + history)[k]; }
        (Reversed(pushed) + history)[..n];
      }
    }
  }
}
