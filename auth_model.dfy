/** What each operation of the authentication service does to the users table,
    the token tables and the audit log, and what it answers: one function per
    operation over a snapshot of the four tables, and the facts proved of them. */
module AuthModel {
  import opened Common
  import opened Text
  import opened Passwords
  import opened Users
  import opened Tokens
  import opened Audit
  import opened Lockout
  import opened Seqs

  /** Access tokens are valid for fifteen minutes. */
  const AccessLifetime: int := 15 * Minute

  /** How long `createUser` says the activation link lasts. */
  const LinkLifetime: int := 48 * Hour

  /** The password signup falls back to when none is given. */
  const FallbackPassword: string := "TempPassword123!"

  const EmailExists: string := "User with this email already exists"
  const DepartmentRequired: string := "Department is required for DEPT_CHIEF role"
  const InvalidRole: string := "Invalid role"
  const InvalidActivation: string := "Invalid or expired activation token"
  const AccountActivated: string := "Account activated successfully"
  const InvalidRefresh: string := "Invalid or expired refresh token"
  const UserInactive: string := "User not found or inactive"
  const LoggedOut: string := "Logged out successfully"
  const UserNotFound: string := "User not found"
  const ResetRequested: string := "If the email exists, a reset link has been sent"
  const InvalidReset: string := "Invalid or expired reset token"
  const PasswordReused: string := "Cannot reuse recent passwords"
  const PasswordResetDone: string := "Password reset successfully"

  /** The claims of a signed access token. */
  datatype AccessClaims = AccessClaims(sub: string, email: string, role: string, department: Option<string>,
                                       expiresAt: Time)

  /** `UserProfileDto`: no password, history or MFA secret. */
  datatype UserProfile = UserProfile(id: string, email: string, firstName: string, lastName: string,
                                     role: string, department: Option<string>, lastLogin: Option<Time>,
                                     mfaEnabled: bool)

  /** What signup and login answer: the access token, the refresh token that
      goes into the cookie, and the profile. */
  datatype Session = Session(accessToken: AccessClaims, refreshToken: string, profile: UserProfile)

  datatype Refreshed = Refreshed(accessToken: AccessClaims, refreshToken: string)

  datatype CreatedUser = CreatedUser(userId: string, activationLink: string, expiresAt: Time)

  /** `CreateUserDto`: the registration form. */
  datatype Registration = Registration(email: string, firstName: string, lastName: string, role: RoleType,
                                       departmentId: Option<string>)

  /** What the service is configured with: the roles present in the `roles`
      table, the `departments` table (id to name), `FRONTEND_URL`, and the key
      derivation behind `hash` and `verify`. */
  datatype Config = Config(roles: set<RoleType>, departments: map<string, string>, frontendUrl: string, kdf: Kdf)

  /** The tables the service works on. */
  datatype Store = Store(users: seq<UserRow>, refresh: seq<RefreshToken>, activation: seq<ActivationToken>,
                         logs: seq<AuditLog>)

  /** The tables after a call, and what the call answers or throws. */
  datatype Outcome<T> = Outcome(store: Store, result: Result<T, HttpError>)

  // ---------------------------------------------------------------------------
  // The users table

  /** The three ways the service looks a user up (`findOne` with a `where`). */
  datatype UserQuery = ByEmail(email: string) | ById(id: string) | ActiveByEmail(activeEmail: string)

  predicate Matches(row: UserRow, q: UserQuery)
  {
    match q
    case ByEmail(e) => row.details.email == e
    case ById(id) => row.id == id
    case ActiveByEmail(e) => row.details.email == e && row.security.status == Active
  }

  /** `findOne`: the first matching row, if any. */
  function FindUser(rows: seq<UserRow>, q: UserQuery): (k: Option<nat>)
    ensures k.Some? ==> k.value < |rows| && Matches(rows[k.value], q)
    ensures k.Some? ==> forall j :: 0 <= j < k.value ==> !Matches(rows[j], q)
    ensures k.None? <==> forall i :: 0 <= i < |rows| ==> !Matches(rows[i], q)
  {
    FindFirst(rows, (r: UserRow) => Matches(r, q))
  }

  /** The stored emails, in table order. */
  function Emails(rows: seq<UserRow>): (r: seq<string>)
    ensures |r| == |rows|
    ensures forall i :: 0 <= i < |rows| ==> r[i] == rows[i].details.email
  {
    seq(|rows|, i requires 0 <= i < |rows| => rows[i].details.email)
  }

  /** Some stored row has this id. */
  ghost predicate Stored(rows: seq<UserRow>, id: string)
  {
    exists i :: 0 <= i < |rows| && rows[i].id == id
  }

  /** Every row keeps its own invariant; ids and (normalised) emails are unique. */
  ghost predicate RowsValid(rows: seq<UserRow>)
  {
    (forall i :: 0 <= i < |rows| ==> rows[i].Valid())
    && (forall i, j :: 0 <= i < j < |rows| ==> rows[i].id != rows[j].id && rows[i].details.email != rows[j].details.email)
  }

  /** The invariant of the service's tables: valid rows with unique ids and
      emails, valid token tables, and every refresh, activation or reset token
      belonging to a stored user. */
  ghost predicate StoreValid(st: Store)
  {
    RowsValid(st.users) && RefreshTableValid(st.refresh) && ActivationTableValid(st.activation)
    && (forall k :: 0 <= k < |st.refresh| ==> Stored(st.users, st.refresh[k].userId))
    && (forall k :: 0 <= k < |st.activation| ==> Stored(st.users, st.activation[k].userId))
  }

  /** A user row as `repository.create` and the insert hook leave it: the email
      normalised, the given columns, and every other column at its default. */
  function NewRow(id: string, dto: Registration, status: UserStatus, hash: string, createdBy: Option<string>,
                  now: Time): UserRow
  {
    UserRow(id,
            UserDetails(NormalizeEmail(dto.email), dto.firstName, dto.lastName, dto.role, dto.departmentId,
                        None, now, None, false, now, now, createdBy),
            SecurityState(status, 0, None, 0, None, hash, [], now))
  }

  /** The personal information the password policy checks against. */
  function InfoOf(row: UserRow): UserInfo
  {
    UserInfo(row.details.email, row.details.firstName, row.details.lastName)
  }

  /** `generateAccessToken`'s payload. */
  function Claims(cfg: Config, row: UserRow, now: Time): (c: AccessClaims)
    ensures c.sub == row.id && c.email == row.details.email && c.role == RoleName(row.details.role)
    ensures c.expiresAt == now + AccessLifetime
    ensures c.department.Some? <==> row.details.departmentId.Some? && row.details.departmentId.value in cfg.departments
    ensures c.department.Some? ==> c.department == row.details.departmentId
  {
    AccessClaims(row.id, row.details.email, RoleName(row.details.role),
                 if row.details.departmentId.Some? && row.details.departmentId.value in cfg.departments
                 then row.details.departmentId else None,
                 now + AccessLifetime)
  }

  /** `mapToUserProfile`: the department's name rather than its id, and none of
      the password, history, lock or MFA secret columns. */
  function Profile(cfg: Config, row: UserRow): (p: UserProfile)
    ensures p.id == row.id && p.email == row.details.email
    ensures p.firstName == row.details.firstName && p.lastName == row.details.lastName
    ensures p.role == RoleName(row.details.role) && p.lastLogin == row.security.lastLogin
    ensures p.mfaEnabled == row.details.mfaEnabled
    ensures p.department.Some? <==> row.details.departmentId.Some? && row.details.departmentId.value in cfg.departments
    ensures p.department.Some? ==> p.department.value == cfg.departments[row.details.departmentId.value]
  {
    UserProfile(row.id, row.details.email, row.details.firstName, row.details.lastName, RoleName(row.details.role),
                if row.details.departmentId.Some? && row.details.departmentId.value in cfg.departments
                then Some(cfg.departments[row.details.departmentId.value]) else None,
                row.security.lastLogin, row.details.mfaEnabled)
  }

  /** `validation.errors.join(', ')`. */
  function ErrorText(v: Validation): string
  {
    JoinWith(seq(|v.errors|, i requires 0 <= i < |v.errors| => v.errors[i].Message()), ", ")
  }

  /** `!dto.departmentId`: absent or empty. */
  predicate Blank(departmentId: Option<string>)
  {
    departmentId.None? || departmentId.value == ""
  }

  /** `(dto as any).password || 'TempPassword123!'`. */
  function SignupPassword(password: Option<string>): string
  {
    if password.None? || password.value == "" then FallbackPassword else password.value
  }

  // ---------------------------------------------------------------------------
  // The duplicate-email check

  /** The duplicate-email check as the source writes it: the email as typed is
      looked up, while the row is stored with the email normalised. */
  function EmailTakenAsWritten(emails: seq<string>, email: string): bool
  {
    email in emails
  }

  /** A case variant of a stored email passes the check as written, and the
      insert that follows then collides with the stored row on the unique
      `email` column. */
  lemma AsWrittenCheckAdmitsCollision()
    ensures !EmailTakenAsWritten(["a@x.com"], "A@x.com")
    ensures NormalizeEmail("A@x.com") in ["a@x.com"]
  {
    var lower := ToLower("A@x.com");
    assert lower == "a@x.com" by {
      forall i | 0 <= i < 7 ensures lower[i] == "a@x.com"[i] {
      }
    }
    TrimStartFixed(lower);
    TrimEndFixed(lower);
  }

  /** The check the model uses: the email is normalised, as the insert will
      store it, before it is looked up. */
  function EmailTaken(emails: seq<string>, email: string): (r: bool)
    ensures !r <==> forall i :: 0 <= i < |emails| ==> emails[i] != NormalizeEmail(email)
  {
    NormalizeEmail(email) in emails
  }

  /** Over a table of normalised emails the corrected check refuses every email
      the check as written refuses, and more. */
  lemma EmailTakenRefinesAsWritten(emails: seq<string>, email: string)
    requires forall i :: 0 <= i < |emails| ==> NormalizeEmail(emails[i]) == emails[i]
    ensures EmailTakenAsWritten(emails, email) ==> EmailTaken(emails, email)
  {
    if EmailTakenAsWritten(emails, email) {
      var i :| 0 <= i < |emails| && emails[i] == email;
      assert NormalizeEmail(emails[i]) == emails[i];
    }
  }

  /** A row the corrected check lets through never collides with a stored email:
      appending it keeps the stored emails pairwise distinct. */
  lemma {:induction false} EmailTakenKeepsEmailsUnique(emails: seq<string>, email: string)
    requires forall i, j :: 0 <= i < j < |emails| ==> emails[i] != emails[j]
    requires !EmailTaken(emails, email)
    ensures var after := emails + [NormalizeEmail(email)];
            forall i, j :: 0 <= i < j < |after| ==> after[i] != after[j]
  {
    var after := emails + [NormalizeEmail(email)];
    forall i, j | 0 <= i < j < |after| ensures after[i] != after[j] {
      if j == |emails| {
        assert after[i] == emails[i];
      } else {
        assert after[i] == emails[i] && after[j] == emails[j];
      }
    }
  }

  /** The registration checks `publicSignup` and `createUser` share, in their
      order: a taken email, then a department chief without a department, then
      a role missing from the roles table. */
  function RegistrationError(emails: seq<string>, dto: Registration, roles: set<RoleType>): (e: Option<HttpError>)
    ensures EmailTaken(emails, dto.email) ==> e == Some(Conflict(EmailExists))
    ensures !EmailTaken(emails, dto.email) && dto.role == DeptChief && Blank(dto.departmentId) ==>
              e == Some(BadRequest(DepartmentRequired))
    ensures (!EmailTaken(emails, dto.email) && !(dto.role == DeptChief && Blank(dto.departmentId))
             && dto.role !in roles) ==> e == Some(BadRequest(InvalidRole))
    ensures e.None? <==> !EmailTaken(emails, dto.email) && !(dto.role == DeptChief && Blank(dto.departmentId))
                         && dto.role in roles
  {
    if EmailTaken(emails, dto.email) then Some(Conflict(EmailExists))
    else if dto.role == DeptChief && Blank(dto.departmentId) then Some(BadRequest(DepartmentRequired))
    else if dto.role !in roles then Some(BadRequest(InvalidRole))
    else None
  }

  // ---------------------------------------------------------------------------
  // Audit events the service writes

  function SignupEvent(userId: string, email: string, role: RoleType, ipAddress: string, userAgent: string)
    : AuditEvent
  {
    AuditEvent("USER_SIGNUP", Some(userId), None, map["email" := email, "role" := RoleName(role)],
               Some(ipAddress), Some(userAgent), None)
  }

  function CreatedEvent(createdBy: string, userId: string, email: string, role: RoleType): AuditEvent
  {
    AuditEvent("ACCOUNT_CREATED", Some(createdBy), Some(userId), map["email" := email, "role" := RoleName(role)],
               None, None, None)
  }

  function ActivatedEvent(userId: string, email: string): AuditEvent
  {
    AuditEvent("ACCOUNT_ACTIVATED", Some(userId), None, map["email" := email], None, None, None)
  }

  /** What a login attempt writes to the audit log: nothing when the account
      status turns it away, otherwise one entry. */
  function LoginEvent(a: LoginAudit, userId: string, attemptedEmail: string, storedEmail: string,
                      ipAddress: string, userAgent: string): Option<AuditEvent>
  {
    match a
    case Silent => None
    case AccountLocked =>
      Some(AuditEvent("ACCOUNT_LOCKED", Some(userId), None, map["reason" := "Multiple failed login attempts"],
                      Some(ipAddress), None, Some(Warning)))
    case LoginFailed =>
      Some(AuditEvent("LOGIN_FAILED", Some(userId), None, map["email" := attemptedEmail],
                      Some(ipAddress), None, Some(Warning)))
    case UserLogin =>
      Some(AuditEvent("USER_LOGIN", Some(userId), None, map["email" := storedEmail],
                      Some(ipAddress), Some(userAgent), None))
  }

  function LogoutEvent(userId: string): AuditEvent
  {
    AuditEvent("USER_LOGOUT", Some(userId), None, map[], None, None, None)
  }

  function ResetRequestEvent(userId: string, email: string): AuditEvent
  {
    AuditEvent("PASSWORD_RESET_REQUEST", Some(userId), None, map["email" := email], None, None, None)
  }

  function PasswordChangedEvent(userId: string): AuditEvent
  {
    AuditEvent("PASSWORD_CHANGED", Some(userId), None, map["method" := "reset"], None, None, None)
  }

  // ---------------------------------------------------------------------------
  // The operations

  /** The checks of `publicSignup`, in their order: the registration checks,
      then the password policy against the submitted details. */
  function SignupRefusal(emails: seq<string>, dto: Registration, password: string, roles: set<RoleType>)
    : Option<HttpError>
  {
    match RegistrationError(emails, dto, roles)
    case Some(e) => Some(e)
    case None =>
      var v := Validate(password, Some(UserInfo(dto.email, dto.firstName, dto.lastName)));
      if v.valid then None else Some(BadRequest(ErrorText(v)))
  }

  /** What a successful signup writes: the new row, the session's refresh
      token in a new family, one audit entry. */
  function SignedUp(st: Store, row: UserRow, role: RoleType, ipAddress: string, userAgent: string,
                    secret: string, familyId: string, tokenId: string, now: Time): Store
  {
    Store(st.users + [row],
          st.refresh + [IssuedRefresh(tokenId, row.id, secret, familyId, ipAddress, userAgent, now)],
          st.activation,
          st.logs + [Entry(SignupEvent(row.id, row.details.email, role, ipAddress, userAgent), now)])
  }

  /** Whether the department id given names no stored department. The save
      of such a user is rejected by the `departmentId` foreign key: nothing is
      written and the call ends in an unhandled server error. */
  predicate UnknownDepartment(cfg: Config, dto: Registration)
  {
    dto.departmentId.Some? && dto.departmentId.value !in cfg.departments
  }

  /** The database's answer to an insert that breaks the foreign key. */
  const ForeignKeyViolation: string := "insert or update on table \"users\" violates foreign key constraint"

  /** `publicSignup`. `password` is the optional field of the form; `userId`,
      `salt`, `secret`, `familyId` and `tokenId` stand for the generated uuid,
      salt and refresh token. */
  function Signup(cfg: Config, st: Store, dto: Registration, password: Option<string>,
                  ipAddress: string, userAgent: string,
                  userId: string, salt: seq<byte>, secret: string, familyId: string, tokenId: string,
                  now: Time): Outcome<Session>
  {
    var pw := SignupPassword(password);
    match SignupRefusal(Emails(st.users), dto, pw, cfg.roles)
    case Some(e) => Outcome(st, Failure(e))
    case None =>
      if UnknownDepartment(cfg, dto) then Outcome(st, Failure(InternalError(ForeignKeyViolation)))
      else
      var row := NewRow(userId, dto, Active, Hash(pw, salt, cfg.kdf), None, now);
      Outcome(SignedUp(st, row, dto.role, ipAddress, userAgent, secret, familyId, tokenId, now),
              Success(Session(Claims(cfg, row, now), secret, Profile(cfg, row))))
  }

  /** What a successful `createUser` writes: the new row, its activation
      token, one audit entry. */
  function Registered(st: Store, row: UserRow, createdBy: string, role: RoleType, secret: string, tokenId: string,
                      now: Time): Store
  {
    Store(st.users + [row],
          st.refresh,
          st.activation + [IssuedActivation(tokenId, row.id, secret, Activation, now)],
          st.logs + [Entry(CreatedEvent(createdBy, row.id, row.details.email, role), now)])
  }

  /** `createUser` (HR admins): the same checks as signup but no password
      policy; the account starts pending with a random password, and an
      activation link is returned. `tempPassword` stands for the random uuid,
      `secret` and `tokenId` for the activation token. */
  function Register(cfg: Config, st: Store, dto: Registration, createdBy: string,
                    userId: string, salt: seq<byte>, tempPassword: string, secret: string, tokenId: string,
                    now: Time): Outcome<CreatedUser>
  {
    match RegistrationError(Emails(st.users), dto, cfg.roles)
    case Some(e) => Outcome(st, Failure(e))
    case None =>
      if UnknownDepartment(cfg, dto) then Outcome(st, Failure(InternalError(ForeignKeyViolation)))
      else
      var row := NewRow(userId, dto, Pending, Hash(tempPassword, salt, cfg.kdf), Some(createdBy), now);
      Outcome(Registered(st, row, createdBy, dto.role, secret, tokenId, now),
              Success(CreatedUser(userId, cfg.frontendUrl + "/activate?token=" + secret, now + LinkLifetime)))
  }

  /** The user an activation or reset row belongs to is stored. */
  lemma OwnerStored(st: Store, rec: ActivationToken)
    requires StoreValid(st) && rec in st.activation
    ensures FindUser(st.users, ById(rec.userId)).Some?
  {
    var k :| 0 <= k < |st.activation| && st.activation[k] == rec;
    var i :| 0 <= i < |st.users| && st.users[i].id == rec.userId;
    assert Matches(st.users[i], ById(rec.userId));
  }

  /** Which way a token-and-password request goes before anything is written:
      refused with an error, or accepted for the user at index `k` on the
      strength of the token row `rec`. */
  datatype Decision = Refuse(error: HttpError) | Accept(k: nat, rec: ActivationToken)

  /** The checks of `activateAccount`, in their order: the activation token,
      then the password policy. */
  function ActivateDecision(st: Store, token: string, password: string, now: Time): (d: Decision)
    requires StoreValid(st)
    ensures d.Accept? ==> d.k < |st.users| && d.rec in st.activation && st.users[d.k].id == d.rec.userId
  {
    match CheckActivation(st.activation, token, Activation, now)
    case None => Refuse(BadRequest(InvalidActivation))
    case Some(rec) =>
      OwnerStored(st, rec);
      var k := FindUser(st.users, ById(rec.userId)).value;
      var v := Validate(password, Some(InfoOf(st.users[k])));
      if !v.valid then Refuse(BadRequest(ErrorText(v))) else Accept(k, rec)
  }

  /** What an accepted activation writes: the new hash, the active status and
      the change time; the activation token spent; one audit entry. */
  function ApplyActivation(st: Store, k: nat, rec: ActivationToken, hash: string, now: Time): Store
    requires k < |st.users|
  {
    var u := st.users[k];
    var s := u.security.(password := hash, status := Active, passwordChangedAt := now);
    Store(st.users[k := u.(security := s)], st.refresh, MarkUsed(st.activation, rec.id, now),
          st.logs + [Entry(ActivatedEvent(u.id, u.details.email), now)])
  }

  /** `activateAccount`: a valid activation token and a policy-conforming
      password make the account active, whatever its status was; the failure
      counter and lock columns are left as they are. */
  function Activate(cfg: Config, st: Store, token: string, password: string, salt: seq<byte>, now: Time)
    : Outcome<string>
    requires StoreValid(st)
  {
    match ActivateDecision(st, token, password, now)
    case Refuse(e) => Outcome(st, Failure(e))
    case Accept(k, rec) =>
      Outcome(ApplyActivation(st, k, rec, Hash(password, salt, cfg.kdf), now), Success(AccountActivated))
  }

  /** What a login attempt on the user at index `k` writes: the security
      columns `LoginStep` leaves, a new session's refresh token when the login
      is granted, and the audit entry of the attempt, if any. */
  function LoggedIn(st: Store, k: nat, a: Attempt, email: string, ipAddress: string, userAgent: string,
                    secret: string, familyId: string, tokenId: string, now: Time): Store
    requires k < |st.users|
  {
    var u := st.users[k];
    var logs := match LoginEvent(a.audit, u.id, email, u.details.email, ipAddress, userAgent)
                case None => st.logs
                case Some(e) => st.logs + [Entry(e, now)];
    Store(st.users[k := u.(security := a.state)],
          if a.verdict.Granted? then st.refresh + [IssuedRefresh(tokenId, u.id, secret, familyId, ipAddress, userAgent, now)]
          else st.refresh,
          st.activation, logs)
  }

  /** `login`. An unknown email is answered like a wrong password and changes
      nothing; for a known user the verdict, the new security columns and the
      audit entry are those of `LoginStep`, and a granted login opens a new
      session with a refresh token in a new family. */
  function Login(cfg: Config, st: Store, email: string, password: string, ipAddress: string, userAgent: string,
                 secret: string, familyId: string, tokenId: string, now: Time): Outcome<Session>
  {
    match FindUser(st.users, ByEmail(email))
    case None => Outcome(st, Failure(Unauthorized(InvalidCredentials)))
    case Some(k) =>
      var u := st.users[k];
      var a := LoginStep(u.security, Verify(u.security.password, password, cfg.kdf), now);
      var row := u.(security := a.state);
      Outcome(LoggedIn(st, k, a, email, ipAddress, userAgent, secret, familyId, tokenId, now),
              match a.verdict
              case Rejected(error) => Failure(error)
              case Granted => Success(Session(Claims(cfg, row, now), secret, Profile(cfg, row))))
  }

  /** `refreshToken`: a token that validates, held by an active user, is
      rotated into a new token of the same family; any other token is refused
      (a reused one after its family has been revoked). */
  function Refresh(cfg: Config, st: Store, token: string, ipAddress: string, userAgent: string,
                   secret: string, tokenId: string, now: Time): Outcome<Refreshed>
  {
    var c := CheckRefresh(st.refresh, token, now);
    match c.record
    case None => Outcome(st.(refresh := c.rows), Failure(Unauthorized(InvalidRefresh)))
    case Some(rec) =>
      match FindUser(st.users, ById(rec.userId))
      case None => Outcome(st, Failure(Unauthorized(UserInactive)))
      case Some(k) =>
        if st.users[k].security.status != Active then Outcome(st, Failure(Unauthorized(UserInactive)))
        else
          var j := FindRefresh(st.refresh, token).value;
          Outcome(st.(refresh := Rotate(st.refresh, j, tokenId, secret, ipAddress, userAgent, now)),
                  Success(Refreshed(Claims(cfg, st.users[k], now), secret)))
  }

  /** `logout`: a token that validates has its whole family revoked and the
      logout is audited; the answer is always the same. */
  function Logout(st: Store, token: string, now: Time): Store
  {
    var c := CheckRefresh(st.refresh, token, now);
    match c.record
    case None => st.(refresh := c.rows)
    case Some(rec) =>
      st.(refresh := Revoke(c.rows, Family(rec.familyId), now), logs := st.logs + [Entry(LogoutEvent(rec.userId), now)])
  }

  /** `requestPasswordReset`: only when an active user has that email, a reset
      token is stored and the request audited. The answer is always the same. */
  function RequestReset(st: Store, email: string, secret: string, tokenId: string, now: Time): Store
  {
    match FindUser(st.users, ActiveByEmail(email))
    case None => st
    case Some(k) =>
      var u := st.users[k];
      st.(activation := st.activation + [IssuedActivation(tokenId, u.id, secret, PasswordReset, now)],
          logs := st.logs + [Entry(ResetRequestEvent(u.id, u.details.email), now)])
  }

  /** The security columns after a password reset: the new hash, the replaced
      one pushed onto the history, and the account unlocked and active. */
  function AfterReset(s: SecurityState, hash: string, now: Time): SecurityState
  {
    s.(password := hash, passwordHistory := PushHistory(s.passwordHistory, s.password), passwordChangedAt := now,
       failedLoginAttempts := 0, accountLockedUntil := None, status := Active)
  }

  /** The checks of `confirmPasswordReset`, in their order: the reset token,
      then the policy, then the history of replaced hashes. */
  function ResetDecision(cfg: Config, st: Store, token: string, newPassword: string, now: Time): (d: Decision)
    requires StoreValid(st)
    ensures d.Accept? ==> d.k < |st.users| && d.rec in st.activation && st.users[d.k].id == d.rec.userId
  {
    match CheckActivation(st.activation, token, PasswordReset, now)
    case None => Refuse(BadRequest(InvalidReset))
    case Some(rec) =>
      OwnerStored(st, rec);
      var k := FindUser(st.users, ById(rec.userId)).value;
      var u := st.users[k];
      var v := Validate(newPassword, Some(InfoOf(u)));
      if !v.valid then Refuse(BadRequest(ErrorText(v)))
      else if InHistory(newPassword, u.security.passwordHistory, cfg.kdf) then Refuse(BadRequest(PasswordReused))
      else Accept(k, rec)
  }

  /** What an accepted reset writes: the user's new security columns, every
      refresh token of the user revoked, the reset token spent, one audit entry. */
  function ApplyReset(st: Store, k: nat, rec: ActivationToken, hash: string, now: Time): Store
    requires k < |st.users|
  {
    var u := st.users[k];
    Store(st.users[k := u.(security := AfterReset(u.security, hash, now))],
          Revoke(st.refresh, OwnedBy(u.id), now),
          MarkUsed(st.activation, rec.id, now),
          st.logs + [Entry(PasswordChangedEvent(u.id), now)])
  }

  /** `confirmPasswordReset`: a valid reset token and a new password that meets
      the policy and matches none of the replaced hashes in the history becomes
      the password; every refresh token of the user is revoked and the reset
      token is spent. */
  function ConfirmReset(cfg: Config, st: Store, token: string, newPassword: string, salt: seq<byte>, now: Time)
    : Outcome<string>
    requires StoreValid(st)
  {
    match ResetDecision(cfg, st, token, newPassword, now)
    case Refuse(e) => Outcome(st, Failure(e))
    case Accept(k, rec) =>
      Outcome(ApplyReset(st, k, rec, Hash(newPassword, salt, cfg.kdf), now), Success(PasswordResetDone))
  }

  // ---------------------------------------------------------------------------
  // Every operation keeps the invariant

  /** An email the duplicate check lets through is stored by no row. */
  lemma NotTakenIsNew(rows: seq<UserRow>, email: string)
    requires !EmailTaken(Emails(rows), email)
    ensures forall i :: 0 <= i < |rows| ==> rows[i].details.email != NormalizeEmail(email)
  {
    assert forall i :: 0 <= i < |rows| ==> Emails(rows)[i] == rows[i].details.email;
  }

  /** A new row satisfies the row invariant unless it starts locked. */
  lemma NewRowValid(id: string, dto: Registration, status: UserStatus, hash: string, createdBy: Option<string>,
                    now: Time)
    requires status != Locked
    ensures NewRow(id, dto, status, hash, createdBy, now).Valid()
  {
  }

  /** Appending a valid row whose id and email are new keeps the tables valid. */
  lemma AddRowKeepsValid(st: Store, row: UserRow)
    requires StoreValid(st) && row.Valid() && !Stored(st.users, row.id)
    requires forall i :: 0 <= i < |st.users| ==> st.users[i].details.email != row.details.email
    ensures StoreValid(st.(users := st.users + [row]))
  {
    var rows := st.users + [row];
    forall i | 0 <= i < |rows| ensures rows[i].Valid() {
      if i < |st.users| {
        assert rows[i] == st.users[i];
      }
    }
    forall i, j | 0 <= i < j < |rows| ensures rows[i].id != rows[j].id && rows[i].details.email != rows[j].details.email {
      assert rows[i] == st.users[i];
      if j < |st.users| {
        assert rows[j] == st.users[j];
      }
    }
    forall m | 0 <= m < |st.refresh| ensures Stored(rows, st.refresh[m].userId) {
      var i :| 0 <= i < |st.users| && st.users[i].id == st.refresh[m].userId;
      assert rows[i] == st.users[i];
    }
    forall m | 0 <= m < |st.activation| ensures Stored(rows, st.activation[m].userId) {
      var i :| 0 <= i < |st.users| && st.users[i].id == st.activation[m].userId;
      assert rows[i] == st.users[i];
    }
  }

  /** Changing one user's security columns to a valid state keeps the tables valid. */
  lemma SecurityUpdateKeepsValid(st: Store, k: nat, s: SecurityState)
    requires StoreValid(st) && k < |st.users| && s.Valid()
    ensures StoreValid(st.(users := st.users[k := st.users[k].(security := s)]))
  {
    var rows := st.users[k := st.users[k].(security := s)];
    forall m | 0 <= m < |st.refresh| ensures Stored(rows, st.refresh[m].userId) {
      var i :| 0 <= i < |st.users| && st.users[i].id == st.refresh[m].userId;
      assert rows[i].id == st.users[i].id;
    }
    forall m | 0 <= m < |st.activation| ensures Stored(rows, st.activation[m].userId) {
      var i :| 0 <= i < |st.users| && st.users[i].id == st.activation[m].userId;
      assert rows[i].id == st.users[i].id;
    }
  }

  /** Replacing the activation table by a valid one with the same owners keeps
      the tables valid. */
  lemma SameOwnersKeepsValid(st: Store, rows: seq<ActivationToken>)
    requires StoreValid(st) && ActivationTableValid(rows) && |rows| == |st.activation|
    requires forall m :: 0 <= m < |rows| ==> rows[m].userId == st.activation[m].userId
    ensures StoreValid(st.(activation := rows))
  {
    forall m | 0 <= m < |rows| ensures Stored(st.users, rows[m].userId) {
      assert Stored(st.users, st.activation[m].userId);
    }
  }

  /** Adding a fresh activation or reset token for a stored user keeps the tables valid. */
  lemma AddOwnedActivationKeepsValid(st: Store, act: ActivationToken, secret: string)
    requires StoreValid(st) && Stored(st.users, act.userId)
    requires FreshSecret(st.activation, secret, act.id) && act.tokenHash == HashToken(secret)
    ensures StoreValid(st.(activation := st.activation + [act]))
  {
    AddActivationKeepsValid(st.activation, act, secret);
    var acts := st.activation + [act];
    forall m | 0 <= m < |acts| ensures Stored(st.users, acts[m].userId) {
      if m < |st.activation| {
        assert acts[m] == st.activation[m];
      }
    }
  }

  /** Adding a fresh refresh token for a stored user keeps the tables valid. */
  lemma AddOwnedRefreshKeepsValid(st: Store, tok: RefreshToken, secret: string)
    requires StoreValid(st) && Stored(st.users, tok.userId)
    requires FreshRefresh(st.refresh, secret, tok.id) && FreshFamily(st.refresh, tok.familyId)
    requires tok.tokenHash == HashToken(secret)
    ensures StoreValid(st.(refresh := st.refresh + [tok]))
  {
    AddRefreshKeepsValid(st.refresh, tok, secret);
    var toks := st.refresh + [tok];
    forall m | 0 <= m < |toks| ensures Stored(st.users, toks[m].userId) {
      if m < |st.refresh| {
        assert toks[m] == st.refresh[m];
      }
    }
  }

  lemma SignedUpKeepsValid(st: Store, row: UserRow, role: RoleType, ipAddress: string, userAgent: string,
                           secret: string, familyId: string, tokenId: string, now: Time)
    requires StoreValid(st) && row.Valid() && !Stored(st.users, row.id)
    requires forall i :: 0 <= i < |st.users| ==> st.users[i].details.email != row.details.email
    requires FreshRefresh(st.refresh, secret, tokenId) && FreshFamily(st.refresh, familyId)
    ensures StoreValid(SignedUp(st, row, role, ipAddress, userAgent, secret, familyId, tokenId, now))
  {
    AddRowKeepsValid(st, row);
    var st' := st.(users := st.users + [row]);
    assert st'.users[|st.users|].id == row.id;
    AddOwnedRefreshKeepsValid(st', IssuedRefresh(tokenId, row.id, secret, familyId, ipAddress, userAgent, now), secret);
  }

  lemma SignupKeepsValid(cfg: Config, st: Store, dto: Registration, password: Option<string>,
                         ipAddress: string, userAgent: string,
                         userId: string, salt: seq<byte>, secret: string, familyId: string, tokenId: string,
                         now: Time)
    requires StoreValid(st) && !Stored(st.users, userId)
    requires FreshRefresh(st.refresh, secret, tokenId) && FreshFamily(st.refresh, familyId)
    ensures StoreValid(Signup(cfg, st, dto, password, ipAddress, userAgent, userId, salt, secret, familyId, tokenId,
                              now).store)
  {
    var pw := SignupPassword(password);
    if SignupRefusal(Emails(st.users), dto, pw, cfg.roles).None? && !UnknownDepartment(cfg, dto) {
      var row := NewRow(userId, dto, Active, Hash(pw, salt, cfg.kdf), None, now);
      NotTakenIsNew(st.users, dto.email);
      NewRowValid(userId, dto, Active, Hash(pw, salt, cfg.kdf), None, now);
      SignedUpKeepsValid(st, row, dto.role, ipAddress, userAgent, secret, familyId, tokenId, now);
    }
  }

  lemma RegisteredKeepsValid(st: Store, row: UserRow, createdBy: string, role: RoleType, secret: string,
                             tokenId: string, now: Time)
    requires StoreValid(st) && row.Valid() && !Stored(st.users, row.id)
    requires forall i :: 0 <= i < |st.users| ==> st.users[i].details.email != row.details.email
    requires FreshSecret(st.activation, secret, tokenId)
    ensures StoreValid(Registered(st, row, createdBy, role, secret, tokenId, now))
  {
    AddRowKeepsValid(st, row);
    assert (st.users + [row])[|st.users|].id == row.id;
    AddOwnedActivationKeepsValid(st.(users := st.users + [row]), IssuedActivation(tokenId, row.id, secret, Activation, now),
                                 secret);
  }

  lemma RegisterKeepsValid(cfg: Config, st: Store, dto: Registration, createdBy: string,
                           userId: string, salt: seq<byte>, tempPassword: string, secret: string, tokenId: string,
                           now: Time)
    requires StoreValid(st) && !Stored(st.users, userId) && FreshSecret(st.activation, secret, tokenId)
    ensures StoreValid(Register(cfg, st, dto, createdBy, userId, salt, tempPassword, secret, tokenId, now).store)
  {
    if RegistrationError(Emails(st.users), dto, cfg.roles).None? && !UnknownDepartment(cfg, dto) {
      var row := NewRow(userId, dto, Pending, Hash(tempPassword, salt, cfg.kdf), Some(createdBy), now);
      NotTakenIsNew(st.users, dto.email);
      NewRowValid(userId, dto, Pending, Hash(tempPassword, salt, cfg.kdf), Some(createdBy), now);
      RegisteredKeepsValid(st, row, createdBy, dto.role, secret, tokenId, now);
    }
  }

  lemma ApplyActivationKeepsValid(st: Store, k: nat, rec: ActivationToken, hash: string, now: Time)
    requires StoreValid(st) && k < |st.users|
    ensures StoreValid(ApplyActivation(st, k, rec, hash, now))
  {
    var u := st.users[k];
    var s := u.security.(password := hash, status := Active, passwordChangedAt := now);
    SecurityUpdateKeepsValid(st, k, s);
    var st1 := st.(users := st.users[k := u.(security := s)]);
    MarkUsedKeepsValid(st.activation, rec.id, now);
    SameOwnersKeepsValid(st1, MarkUsed(st.activation, rec.id, now));
  }

  lemma ActivateKeepsValid(cfg: Config, st: Store, token: string, password: string, salt: seq<byte>, now: Time)
    requires StoreValid(st)
    ensures StoreValid(Activate(cfg, st, token, password, salt, now).store)
  {
    match ActivateDecision(st, token, password, now)
    case Refuse(_) =>
    case Accept(k, rec) => ApplyActivationKeepsValid(st, k, rec, Hash(password, salt, cfg.kdf), now);
  }

  lemma LoggedInKeepsValid(st: Store, k: nat, a: Attempt, email: string, ipAddress: string, userAgent: string,
                           secret: string, familyId: string, tokenId: string, now: Time)
    requires StoreValid(st) && k < |st.users| && a.state.Valid()
    requires FreshRefresh(st.refresh, secret, tokenId) && FreshFamily(st.refresh, familyId)
    ensures StoreValid(LoggedIn(st, k, a, email, ipAddress, userAgent, secret, familyId, tokenId, now))
  {
    SecurityUpdateKeepsValid(st, k, a.state);
    var st' := st.(users := st.users[k := st.users[k].(security := a.state)]);
    assert st'.users[k].id == st.users[k].id;
    AddOwnedRefreshKeepsValid(st', IssuedRefresh(tokenId, st.users[k].id, secret, familyId, ipAddress, userAgent, now),
                              secret);
  }

  lemma LoginKeepsValid(cfg: Config, st: Store, email: string, password: string, ipAddress: string,
                        userAgent: string, secret: string, familyId: string, tokenId: string, now: Time)
    requires StoreValid(st)
    requires FreshRefresh(st.refresh, secret, tokenId) && FreshFamily(st.refresh, familyId)
    ensures StoreValid(Login(cfg, st, email, password, ipAddress, userAgent, secret, familyId, tokenId, now).store)
  {
    match FindUser(st.users, ByEmail(email))
    case None =>
    case Some(k) =>
      var u := st.users[k];
      var ok := Verify(u.security.password, password, cfg.kdf);
      LoginStepKeepsValid(u.security, ok, now);
      LoggedInKeepsValid(st, k, LoginStep(u.security, ok, now), email, ipAddress, userAgent, secret, familyId,
                         tokenId, now);
  }

  lemma RefreshKeepsValid(cfg: Config, st: Store, token: string, ipAddress: string, userAgent: string,
                          secret: string, tokenId: string, now: Time)
    requires StoreValid(st) && FreshRefresh(st.refresh, secret, tokenId)
    ensures StoreValid(Refresh(cfg, st, token, ipAddress, userAgent, secret, tokenId, now).store)
  {
    CheckRefreshKeepsValid(st.refresh, token, now);
    var c := CheckRefresh(st.refresh, token, now);
    if c.record.Some? {
      var j := FindRefresh(st.refresh, token).value;
      RotateKeepsValid(st.refresh, j, tokenId, secret, ipAddress, userAgent, now);
    }
  }

  lemma LogoutKeepsValid(st: Store, token: string, now: Time)
    requires StoreValid(st)
    ensures StoreValid(Logout(st, token, now))
  {
    CheckRefreshKeepsValid(st.refresh, token, now);
    var c := CheckRefresh(st.refresh, token, now);
    if c.record.Some? {
      RevokeKeepsValid(c.rows, Family(c.record.value.familyId), now);
    }
  }

  lemma RequestResetKeepsValid(st: Store, email: string, secret: string, tokenId: string, now: Time)
    requires StoreValid(st) && FreshSecret(st.activation, secret, tokenId)
    ensures StoreValid(RequestReset(st, email, secret, tokenId, now))
  {
    match FindUser(st.users, ActiveByEmail(email))
    case None =>
    case Some(k) =>
      var act := IssuedActivation(tokenId, st.users[k].id, secret, PasswordReset, now);
      AddOwnedActivationKeepsValid(st, act, secret);
  }

  lemma ApplyResetKeepsValid(st: Store, k: nat, rec: ActivationToken, hash: string, now: Time)
    requires StoreValid(st) && k < |st.users|
    ensures StoreValid(ApplyReset(st, k, rec, hash, now))
  {
    var u := st.users[k];
    var s := AfterReset(u.security, hash, now);
    SecurityUpdateKeepsValid(st, k, s);
    var st1 := st.(users := st.users[k := u.(security := s)]);
    MarkUsedKeepsValid(st.activation, rec.id, now);
    SameOwnersKeepsValid(st1, MarkUsed(st.activation, rec.id, now));
    RevokeKeepsValid(st.refresh, OwnedBy(u.id), now);
  }

  lemma ConfirmResetKeepsValid(cfg: Config, st: Store, token: string, newPassword: string, salt: seq<byte>,
                               now: Time)
    requires StoreValid(st)
    ensures StoreValid(ConfirmReset(cfg, st, token, newPassword, salt, now).store)
  {
    match ResetDecision(cfg, st, token, newPassword, now)
    case Refuse(_) =>
    case Accept(k, rec) => ApplyResetKeepsValid(st, k, rec, Hash(newPassword, salt, cfg.kdf), now);
  }
}
