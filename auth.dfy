/** `AuthService`: the users table, the token service and the audit service,
    and the operations of the auth controller written step by step as the
    service performs them. Each operation is proved to leave the tables as the
    matching function of `AuthModel` says and to answer what it answers, and to
    keep the tables' invariant. */
module Auth {
  import opened Common
  import opened Passwords
  import opened Users
  import opened Tokens
  import opened Audit
  import opened Lockout
  import opened AuthModel

  class AuthService {
    /** The `users` table, one value per row. */
    var users: seq<UserRow>
    /** The roles table, the departments table, the frontend URL and the key derivation. */
    const config: Config
    const tokens: TokenStore
    const audit: AuditService

    /** The tables, as the functions of `AuthModel` see them. */
    ghost function State(): Store
      reads this, tokens, audit
    {
      Store(users, tokens.refreshTokens, tokens.activationTokens, audit.logs)
    }

    ghost predicate Valid()
      reads this, tokens, audit
    {
      StoreValid(State())
    }

    constructor (config: Config)
      ensures Valid() && fresh(tokens) && fresh(audit)
      ensures this.config == config && State() == Store([], [], [], [])
    {
      this.config := config;
      users := [];
      tokens := new TokenStore();
      audit := new AuditService();
    }

    /** `repository.create` followed by `save`: a new row built by the entity's
        constructor and insert hook, appended to the table. */
    method Insert(dto: Registration, status: UserStatus, hash: string, createdBy: Option<string>,
                  userId: string, now: Time)
      returns (row: UserRow)
      modifies this
      ensures row == NewRow(userId, dto, status, hash, createdBy, now)
      ensures users == old(users) + [row]
    {
      var user := new User(userId, dto.email, dto.firstName, dto.lastName, hash, dto.role, dto.departmentId, now);
      user.status := status;
      user.createdBy := createdBy;
      user.NormalizeStoredEmail();
      row := user.Row();
      users := users + [row];
    }

    /** The writes of a signup that passed its checks: the row, the audit
        entry, the session's refresh token. */
    method SaveSignup(dto: Registration, hash: string, userId: string, ipAddress: string, userAgent: string,
                      secret: string, familyId: string, tokenId: string, now: Time)
      returns (row: UserRow, refresh: string)
      requires Valid() && !Stored(users, userId) && !EmailTaken(Emails(users), dto.email)
      requires FreshRefresh(tokens.refreshTokens, secret, tokenId) && FreshFamily(tokens.refreshTokens, familyId)
      modifies this, tokens, audit
      ensures Valid()
      ensures row == NewRow(userId, dto, Active, hash, None, now) && refresh == secret
      ensures State() == SignedUp(old(State()), row, dto.role, ipAddress, userAgent, secret, familyId, tokenId, now)
    {
      ghost var st := State();
      NotTakenIsNew(users, dto.email);
      NewRowValid(userId, dto, Active, hash, None, now);
      SignedUpKeepsValid(st, NewRow(userId, dto, Active, hash, None, now), dto.role, ipAddress, userAgent, secret,
                         familyId, tokenId, now);
      row := Insert(dto, Active, hash, None, userId, now);
      audit.Log(SignupEvent(userId, row.details.email, dto.role, ipAddress, userAgent), now);
      refresh := tokens.CreateRefreshToken(userId, ipAddress, userAgent, secret, familyId, tokenId, now);
    }

    /** `publicSignup`. */
    method PublicSignup(dto: Registration, password: Option<string>, ipAddress: string, userAgent: string,
                        userId: string, salt: seq<byte>, secret: string, familyId: string, tokenId: string,
                        now: Time)
      returns (r: Result<Session, HttpError>)
      requires Valid() && !Stored(users, userId)
      requires FreshRefresh(tokens.refreshTokens, secret, tokenId) && FreshFamily(tokens.refreshTokens, familyId)
      modifies this, tokens, audit
      ensures Valid()
      ensures var out := Signup(config, old(State()), dto, password, ipAddress, userAgent, userId, salt, secret,
                                familyId, tokenId, now);
              State() == out.store && r == out.result
    {
      var error := RegistrationError(Emails(users), dto, config.roles);
      if error.Some? {
        return Failure(error.value);
      }
      var pw := SignupPassword(password);
      var v := Validate(pw, Some(UserInfo(dto.email, dto.firstName, dto.lastName)));
      if !v.valid {
        return Failure(BadRequest(ErrorText(v)));
      }
      if UnknownDepartment(config, dto) {
        return Failure(InternalError(ForeignKeyViolation));
      }
      var row, refresh := SaveSignup(dto, Hash(pw, salt, config.kdf), userId, ipAddress, userAgent, secret,
                                     familyId, tokenId, now);
      var claims := Claims(config, row, now);
      r := Success(Session(claims, refresh, Profile(config, row)));
    }

    /** The writes of a `createUser` that passed its checks: the row, the
        activation token, the audit entry. */
    method SaveRegistration(dto: Registration, hash: string, createdBy: string, userId: string, secret: string,
                            tokenId: string, now: Time)
      returns (row: UserRow, token: string)
      requires Valid() && !Stored(users, userId) && !EmailTaken(Emails(users), dto.email)
      requires tokens.FreshActivation(secret, tokenId)
      modifies this, tokens, audit
      ensures Valid()
      ensures row == NewRow(userId, dto, Pending, hash, Some(createdBy), now) && token == secret
      ensures State() == Registered(old(State()), row, createdBy, dto.role, secret, tokenId, now)
    {
      ghost var st := State();
      NotTakenIsNew(users, dto.email);
      NewRowValid(userId, dto, Pending, hash, Some(createdBy), now);
      RegisteredKeepsValid(st, NewRow(userId, dto, Pending, hash, Some(createdBy), now), createdBy, dto.role, secret,
                           tokenId, now);
      row := Insert(dto, Pending, hash, Some(createdBy), userId, now);
      token := tokens.CreateActivationToken(userId, Activation, secret, tokenId, now);
      audit.Log(CreatedEvent(createdBy, userId, row.details.email, dto.role), now);
    }

    /** `createUser`. */
    method CreateUser(dto: Registration, createdBy: string, userId: string, salt: seq<byte>, tempPassword: string,
                      secret: string, tokenId: string, now: Time)
      returns (r: Result<CreatedUser, HttpError>)
      requires Valid() && !Stored(users, userId) && tokens.FreshActivation(secret, tokenId)
      modifies this, tokens, audit
      ensures Valid()
      ensures var out := Register(config, old(State()), dto, createdBy, userId, salt, tempPassword, secret,
                                  tokenId, now);
              State() == out.store && r == out.result
    {
      var error := RegistrationError(Emails(users), dto, config.roles);
      if error.Some? {
        return Failure(error.value);
      }
      if UnknownDepartment(config, dto) {
        return Failure(InternalError(ForeignKeyViolation));
      }
      var row, token := SaveRegistration(dto, Hash(tempPassword, salt, config.kdf), createdBy, userId, secret,
                                         tokenId, now);
      var link := config.frontendUrl + "/activate?token=" + token;
      r := Success(CreatedUser(userId, link, now + LinkLifetime));
    }

    /** The row of the user a stored activation or reset token belongs to. */
    method Owner(rec: ActivationToken) returns (k: nat)
      requires Valid() && rec in tokens.activationTokens
      ensures FindUser(users, ById(rec.userId)) == Some(k)
    {
      OwnerStored(State(), rec);
      k := FindUser(users, ById(rec.userId)).value;
    }

    /** The reads of `activateAccount`: the activation token, then the
        password policy against the owner's details. */
    method CheckActivationRequest(token: string, password: string, now: Time) returns (d: Decision)
      requires Valid()
      ensures d == ActivateDecision(State(), token, password, now)
    {
      var rec := tokens.ValidateActivationToken(token, Activation, now);
      if rec.None? {
        return Refuse(BadRequest(InvalidActivation));
      }
      var k := Owner(rec.value);
      var v := Validate(password, Some(InfoOf(users[k])));
      if !v.valid {
        return Refuse(BadRequest(ErrorText(v)));
      }
      d := Accept(k, rec.value);
    }

    /** The writes of `activateAccount`: the user's new password, status and
        change time, the token spent, the audit entry. */
    method SaveActivation(k: nat, rec: ActivationToken, hash: string, now: Time)
      requires Valid() && k < |users|
      modifies this, tokens, audit
      ensures Valid()
      ensures State() == ApplyActivation(old(State()), k, rec, hash, now)
    {
      ApplyActivationKeepsValid(State(), k, rec, hash, now);
      var user := users[k];
      var s := user.security;
      s := s.(password := hash);
      s := s.(status := Active);
      s := s.(passwordChangedAt := now);
      users := users[k := user.(security := s)];
      tokens.MarkTokenAsUsed(rec.id, now);
      audit.Log(ActivatedEvent(user.id, user.details.email), now);
    }

    /** `activateAccount`. */
    method ActivateAccount(token: string, password: string, salt: seq<byte>, now: Time)
      returns (r: Result<string, HttpError>)
      requires Valid()
      modifies this, tokens, audit
      ensures Valid()
      ensures var out := Activate(config, old(State()), token, password, salt, now);
              State() == out.store && r == out.result
    {
      var d := CheckActivationRequest(token, password, now);
      match d
      case Refuse(e) =>
        r := Failure(e);
      case Accept(k, rec) =>
        SaveActivation(k, rec, Hash(password, salt, config.kdf), now);
        r := Success(AccountActivated);
    }

    /** The status and password checks of `login` on a found user's security
        columns, as the source steps through them: the lazy unlock, the status
        refusals, the failure counter and the lock. */
    method AttemptLogin(security: SecurityState, password: string, now: Time) returns (a: Attempt)
      ensures a == LoginStep(security, Verify(security.password, password, config.kdf), now)
    {
      var s := security;
      if s.status == Locked {
        if s.accountLockedUntil.Some? && s.accountLockedUntil.value > now {
          return Attempt(s, Rejected(Unauthorized(LockedUntilMessage(s.accountLockedUntil.value))), Silent);
        }
        s := s.(status := Active, failedLoginAttempts := 0, accountLockedUntil := None);
      }
      if s.status == Suspended {
        return Attempt(s, Rejected(Unauthorized(AccountSuspended)), Silent);
      }
      if s.status == Pending {
        return Attempt(s, Rejected(Unauthorized(NotActivated)), Silent);
      }
      var passwordOk := Verify(s.password, password, config.kdf);
      if !passwordOk {
        s := s.(failedLoginAttempts := s.failedLoginAttempts + 1);
        if s.failedLoginAttempts >= MaxFailedAttempts {
          s := s.(status := Locked, accountLockedUntil := Some(now + LockDuration),
                  lockoutCount24h := s.lockoutCount24h + 1);
          return Attempt(s, Rejected(Unauthorized(LockedNow)), AccountLocked);
        }
        return Attempt(s, Rejected(Unauthorized(InvalidCredentials)), LoginFailed);
      }
      s := s.(failedLoginAttempts := 0, lastLogin := Some(now));
      a := Attempt(s, Granted, UserLogin);
    }

    /** The writes of a login attempt on the user at index `k`: the security
        columns, the refresh token of a granted login, the audit entry. */
    method SaveLogin(k: nat, a: Attempt, email: string, ipAddress: string, userAgent: string,
                     secret: string, familyId: string, tokenId: string, now: Time)
      returns (refresh: Option<string>)
      requires Valid() && k < |users| && a.state.Valid()
      requires FreshRefresh(tokens.refreshTokens, secret, tokenId) && FreshFamily(tokens.refreshTokens, familyId)
      modifies this, tokens, audit
      ensures Valid()
      ensures refresh == if a.verdict.Granted? then Some(secret) else None
      ensures State() == LoggedIn(old(State()), k, a, email, ipAddress, userAgent, secret, familyId, tokenId, now)
    {
      LoggedInKeepsValid(State(), k, a, email, ipAddress, userAgent, secret, familyId, tokenId, now);
      var user := users[k];
      users := users[k := user.(security := a.state)];
      refresh := None;
      if a.verdict.Granted? {
        var token := tokens.CreateRefreshToken(user.id, ipAddress, userAgent, secret, familyId, tokenId, now);
        refresh := Some(token);
      }
      var event := LoginEvent(a.audit, user.id, email, user.details.email, ipAddress, userAgent);
      if event.Some? {
        audit.Log(event.value, now);
      }
    }

    /** `login`. */
    method Login(email: string, password: string, ipAddress: string, userAgent: string,
                 secret: string, familyId: string, tokenId: string, now: Time)
      returns (r: Result<Session, HttpError>)
      requires Valid()
      requires FreshRefresh(tokens.refreshTokens, secret, tokenId) && FreshFamily(tokens.refreshTokens, familyId)
      modifies this, tokens, audit
      ensures Valid()
      ensures var out := AuthModel.Login(config, old(State()), email, password, ipAddress, userAgent, secret,
                                         familyId, tokenId, now);
              State() == out.store && r == out.result
    {
      var found := FindUser(users, ByEmail(email));
      if found.None? {
        return Failure(Unauthorized(InvalidCredentials));
      }
      var k := found.value;
      var user := users[k];
      var a := AttemptLogin(user.security, password, now);
      LoginStepKeepsValid(user.security, Verify(user.security.password, password, config.kdf), now);
      var refresh := SaveLogin(k, a, email, ipAddress, userAgent, secret, familyId, tokenId, now);
      match a.verdict
      case Rejected(error) =>
        r := Failure(error);
      case Granted =>
        var row := users[k];
        r := Success(Session(Claims(config, row, now), refresh.value, Profile(config, row)));
    }

    /** `refreshToken`. */
    method RefreshToken(token: string, ipAddress: string, userAgent: string, secret: string, tokenId: string,
                        now: Time)
      returns (r: Result<Refreshed, HttpError>)
      requires Valid() && FreshRefresh(tokens.refreshTokens, secret, tokenId)
      modifies tokens
      ensures Valid()
      ensures var out := Refresh(config, old(State()), token, ipAddress, userAgent, secret, tokenId, now);
              State() == out.store && r == out.result
    {
      RefreshKeepsValid(config, State(), token, ipAddress, userAgent, secret, tokenId, now);
      ghost var before := tokens.refreshTokens;
      var rec := tokens.ValidateRefreshToken(token, now);
      if rec.None? {
        return Failure(Unauthorized(InvalidRefresh));
      }
      var found := FindUser(users, ById(rec.value.userId));
      if found.None? || users[found.value].security.status != Active {
        return Failure(Unauthorized(UserInactive));
      }
      var claims := Claims(config, users[found.value], now);
      var refresh := tokens.RotateRefreshToken(rec.value, ipAddress, userAgent, secret, tokenId, now);
      ghost var k :| 0 <= k < |before| && before[k] == rec.value
                     && tokens.refreshTokens == Rotate(before, k, tokenId, secret, ipAddress, userAgent, now);
      RefreshRowUnique(before, k, FindRefresh(before, token).value);
      r := Success(Refreshed(claims, refresh));
    }

    /** `logout`: the answer is the same whatever the token. */
    method Logout(token: string, now: Time) returns (message: string)
      requires Valid()
      modifies tokens, audit
      ensures Valid()
      ensures State() == AuthModel.Logout(old(State()), token, now) && message == LoggedOut
    {
      LogoutKeepsValid(State(), token, now);
      var rec := tokens.ValidateRefreshToken(token, now);
      if rec.Some? {
        tokens.RevokeTokenFamily(rec.value.familyId, now);
        audit.Log(LogoutEvent(rec.value.userId), now);
      }
      message := LoggedOut;
    }

    /** `getCurrentUser`: reads the table only. */
    method GetCurrentUser(userId: string) returns (r: Result<UserProfile, HttpError>)
      ensures r.Failure? <==> forall i :: 0 <= i < |users| ==> users[i].id != userId
      ensures r.Failure? ==> r.error == NotFound(UserNotFound)
      ensures r.Success? ==> exists i :: 0 <= i < |users| && users[i].id == userId
                                         && r.value == Profile(config, users[i])
    {
      var found := FindUser(users, ById(userId));
      if found.None? {
        return Failure(NotFound(UserNotFound));
      }
      r := Success(Profile(config, users[found.value]));
    }

    /** `requestPasswordReset`: the answer is the same whether or not an active
        user has the email. */
    method RequestPasswordReset(email: string, secret: string, tokenId: string, now: Time) returns (message: string)
      requires Valid() && tokens.FreshActivation(secret, tokenId)
      modifies tokens, audit
      ensures Valid()
      ensures State() == RequestReset(old(State()), email, secret, tokenId, now) && message == ResetRequested
    {
      RequestResetKeepsValid(State(), email, secret, tokenId, now);
      var found := FindUser(users, ActiveByEmail(email));
      if found.Some? {
        var user := users[found.value];
        var token := tokens.CreateActivationToken(user.id, PasswordReset, secret, tokenId, now);
        audit.Log(ResetRequestEvent(user.id, user.details.email), now);
      }
      message := ResetRequested;
    }

    /** The reads of `confirmPasswordReset`: the reset token, the password
        policy against the owner's details, the owner's password history. */
    method CheckResetRequest(token: string, newPassword: string, now: Time) returns (d: Decision)
      requires Valid()
      ensures d == ResetDecision(config, State(), token, newPassword, now)
    {
      var rec := tokens.ValidateActivationToken(token, PasswordReset, now);
      if rec.None? {
        return Refuse(BadRequest(InvalidReset));
      }
      var k := Owner(rec.value);
      var user := users[k];
      var v := Validate(newPassword, Some(InfoOf(user)));
      if !v.valid {
        return Refuse(BadRequest(ErrorText(v)));
      }
      var reused := IsInHistory(newPassword, user.security.passwordHistory, config.kdf);
      if reused {
        return Refuse(BadRequest(PasswordReused));
      }
      d := Accept(k, rec.value);
    }

    /** The writes of `confirmPasswordReset`: the history (the replaced hash
        put in front, the oldest dropped beyond five), the new hash, the unlock;
        every refresh token of the user revoked; the reset token spent; the
        audit entry. */
    method SaveReset(k: nat, rec: ActivationToken, hash: string, now: Time)
      requires Valid() && k < |users|
      modifies this, tokens, audit
      ensures Valid()
      ensures State() == ApplyReset(old(State()), k, rec, hash, now)
    {
      ApplyResetKeepsValid(State(), k, rec, hash, now);
      var user := users[k];
      var history := [user.security.password] + user.security.passwordHistory;
      if |history| > HistoryLimit {
        history := history[..|history| - 1];
      }
      var s := user.security;
      s := s.(password := hash, passwordHistory := history);
      s := s.(passwordChangedAt := now, failedLoginAttempts := 0, accountLockedUntil := None, status := Active);
      users := users[k := user.(security := s)];
      tokens.RevokeAllUserTokens(user.id, now);
      tokens.MarkTokenAsUsed(rec.id, now);
      audit.Log(PasswordChangedEvent(user.id), now);
    }

    /** `confirmPasswordReset`. */
    method ConfirmPasswordReset(token: string, newPassword: string, salt: seq<byte>, now: Time)
      returns (r: Result<string, HttpError>)
      requires Valid()
      modifies this, tokens, audit
      ensures Valid()
      ensures var out := ConfirmReset(config, old(State()), token, newPassword, salt, now);
              State() == out.store && r == out.result
    {
      var d := CheckResetRequest(token, newPassword, now);
      match d
      case Refuse(e) =>
        r := Failure(e);
      case Accept(k, rec) =>
        SaveReset(k, rec, Hash(newPassword, salt, config.kdf), now);
        r := Success(PasswordResetDone);
    }
  }
}
