/** What the auth operations promise, stated over every store that keeps the
    invariant: who gets a session, which tokens validate afterwards and which
    never do again, and that a refusal writes nothing. */
module AuthProperties {
  import opened Common
  import opened Text
  import opened Passwords
  import opened Users
  import opened Tokens
  import opened Lockout
  import opened AuthModel

  // ---------------------------------------------------------------------------
  // Signup and account creation

  /** A signup fails exactly when a registration check or the password policy
      refuses it, with that error, or when it names an unknown department,
      which the insert rejects; a failed signup writes nothing. */
  lemma SignupRefusesOrSucceeds(cfg: Config, st: Store, dto: Registration, password: Option<string>,
                                ipAddress: string, userAgent: string,
                                userId: string, salt: seq<byte>, secret: string, familyId: string, tokenId: string,
                                now: Time)
    ensures var out := Signup(cfg, st, dto, password, ipAddress, userAgent, userId, salt, secret, familyId, tokenId,
                              now);
            var refusal := SignupRefusal(Emails(st.users), dto, SignupPassword(password), cfg.roles);
            (out.result.Failure? <==> refusal.Some? || UnknownDepartment(cfg, dto))
            && (out.result.Failure? ==> out.store == st)
            && (refusal.Some? ==> out.result == Failure(refusal.value))
            && (refusal.None? && UnknownDepartment(cfg, dto) ==>
                  out.result == Failure(InternalError(ForeignKeyViolation)))
  {
  }

  /** A signup that is not refused stores one new active user under the
      normalised email, whom that email now finds; the submitted password (or
      the fallback) verifies against the stored hash; and the returned refresh
      token validates and belongs to the new user. */
  lemma {:induction false} SignupOpensSession(cfg: Config, st: Store, dto: Registration, password: Option<string>,
                                              ipAddress: string, userAgent: string,
                                              userId: string, salt: seq<byte>, secret: string, familyId: string,
                                              tokenId: string, now: Time)
    requires StoreValid(st) && !Stored(st.users, userId)
    requires FreshRefresh(st.refresh, secret, tokenId)
    requires SignupRefusal(Emails(st.users), dto, SignupPassword(password), cfg.roles).None?
    requires !UnknownDepartment(cfg, dto)
    ensures var out := Signup(cfg, st, dto, password, ipAddress, userAgent, userId, salt, secret, familyId, tokenId,
                              now);
            var row := out.store.users[|st.users|];
            |out.store.users| == |st.users| + 1
            && FindUser(out.store.users, ByEmail(NormalizeEmail(dto.email))) == Some(|st.users|)
            && row.id == userId && row.security.status == Active
            && Verify(row.security.password, SignupPassword(password), cfg.kdf)
            && out.result.Success? && out.result.value.refreshToken == secret
            && CheckRefresh(out.store.refresh, secret, now).record.Some?
            && CheckRefresh(out.store.refresh, secret, now).record.value.userId == userId
  {
    var pw := SignupPassword(password);
    var row := NewRow(userId, dto, Active, Hash(pw, salt, cfg.kdf), None, now);
    var issued := IssuedRefresh(tokenId, userId, secret, familyId, ipAddress, userAgent, now);
    var out := Signup(cfg, st, dto, password, ipAddress, userAgent, userId, salt, secret, familyId, tokenId, now);
    assert out.store.users == st.users + [row] && out.store.refresh == st.refresh + [issued];
    NotTakenIsNew(st.users, dto.email);
    AppendedRowFound(st.users, row);
    VerifyHash(pw, salt, cfg.kdf);
    IssuedTokenValidates(st.refresh, issued, secret, now);
  }

  /** `createUser` fails exactly when a registration check refuses it, with
      that error, or when it names an unknown department, which the insert
      rejects; a failed registration writes nothing. */
  lemma RegisterRefusesOrSucceeds(cfg: Config, st: Store, dto: Registration, createdBy: string,
                                  userId: string, salt: seq<byte>, tempPassword: string, secret: string,
                                  tokenId: string, now: Time)
    ensures var out := Register(cfg, st, dto, createdBy, userId, salt, tempPassword, secret, tokenId, now);
            var refusal := RegistrationError(Emails(st.users), dto, cfg.roles);
            (out.result.Failure? <==> refusal.Some? || UnknownDepartment(cfg, dto))
            && (out.result.Failure? ==> out.store == st)
            && (refusal.Some? ==> out.result == Failure(refusal.value))
            && (refusal.None? && UnknownDepartment(cfg, dto) ==>
                  out.result == Failure(InternalError(ForeignKeyViolation)))
  {
  }

  /** A row whose email no stored row has is what that email finds once the
      row is appended. */
  lemma AppendedRowFound(users: seq<UserRow>, row: UserRow)
    requires forall i :: 0 <= i < |users| ==> users[i].details.email != row.details.email
    ensures FindUser(users + [row], ByEmail(row.details.email)) == Some(|users|)
  {
    var rows := users + [row];
    assert Matches(rows[|users|], ByEmail(row.details.email));
    assert forall i :: 0 <= i < |users| ==> rows[i] == users[i];
  }

  /** `createUser` that is not refused stores a pending user and answers with a
      link whose token validates as an activation token of that user, expiring
      exactly when the answer says. */
  lemma CreatedUserCanActivate(cfg: Config, st: Store, dto: Registration, createdBy: string,
                               userId: string, salt: seq<byte>, tempPassword: string, secret: string,
                               tokenId: string, now: Time)
    requires FreshSecret(st.activation, secret, tokenId)
    requires RegistrationError(Emails(st.users), dto, cfg.roles).None?
    requires !UnknownDepartment(cfg, dto)
    ensures var out := Register(cfg, st, dto, createdBy, userId, salt, tempPassword, secret, tokenId, now);
            var rec := CheckActivation(out.store.activation, secret, Activation, now);
            out.result.Success?
            && out.result.value.activationLink == cfg.frontendUrl + "/activate?token=" + secret
            && out.store.users[|st.users|].id == userId && out.store.users[|st.users|].security.status == Pending
            && rec.Some? && rec.value.userId == userId && rec.value.expiresAt == out.result.value.expiresAt
  {
    IssuedActivationValidates(st.activation, IssuedActivation(tokenId, userId, secret, Activation, now), secret, now);
  }

  // ---------------------------------------------------------------------------
  // Activation and password reset

  /** A successful activation makes the owner of the token active with the
      new password, and the activation token never validates again, for
      either purpose. */
  lemma ActivationIsSingleUse(cfg: Config, st: Store, token: string, password: string, salt: seq<byte>, now: Time,
                              later: Time, laterType: TokenType)
    requires StoreValid(st)
    requires Activate(cfg, st, token, password, salt, now).result.Success?
    ensures var d := ActivateDecision(st, token, password, now);
            var out := Activate(cfg, st, token, password, salt, now);
            d.Accept? && CheckActivation(st.activation, token, Activation, now) == Some(d.rec)
            && d.k < |out.store.users| && out.store.users[d.k].id == d.rec.userId
            && out.store.users[d.k].security.status == Active
            && Verify(out.store.users[d.k].security.password, password, cfg.kdf)
            && CheckActivation(out.store.activation, token, laterType, later).None?
  {
    VerifyHash(password, salt, cfg.kdf);
    UsedTokenNeverValidates(st.activation, token, Activation, now, now, later, laterType);
  }

  /** A refused activation writes nothing. */
  lemma ActivationRefusalWritesNothing(cfg: Config, st: Store, token: string, password: string, salt: seq<byte>,
                                       now: Time)
    requires StoreValid(st)
    requires Activate(cfg, st, token, password, salt, now).result.Failure?
    ensures Activate(cfg, st, token, password, salt, now).store == st
    ensures CheckActivation(st.activation, token, Activation, now).None? ==>
              Activate(cfg, st, token, password, salt, now).result.error == BadRequest(InvalidActivation)
  {
  }

  /** Every way `confirmPasswordReset` can go, in the order of its checks: an
      unknown, spent, expired or wrong-purpose token; a new password the policy
      refuses; a new password that verifies against a hash of the history; and
      otherwise success. Every refusal writes nothing. */
  lemma ResetOutcomes(cfg: Config, st: Store, token: string, newPassword: string, salt: seq<byte>, now: Time)
    requires StoreValid(st)
    ensures var out := ConfirmReset(cfg, st, token, newPassword, salt, now);
            match CheckActivation(st.activation, token, PasswordReset, now)
            case None => out == Outcome(st, Failure(BadRequest(InvalidReset)))
            case Some(rec) =>
              FindUser(st.users, ById(rec.userId)).Some?
              && var u := st.users[FindUser(st.users, ById(rec.userId)).value];
                 var v := Validate(newPassword, Some(InfoOf(u)));
                 var reused := InHistory(newPassword, u.security.passwordHistory, cfg.kdf);
                 (!v.valid ==> out == Outcome(st, Failure(BadRequest(ErrorText(v)))))
                 && (v.valid && reused ==> out == Outcome(st, Failure(BadRequest(PasswordReused))))
                 && (v.valid && !reused ==> out.result == Success(PasswordResetDone))
  {
    match CheckActivation(st.activation, token, PasswordReset, now)
    case None =>
    case Some(rec) =>
      OwnerStored(st, rec);
  }

  /** A successful reset: the new password verifies, the replaced hash heads
      a history of at most five, and the owner of the token is active and
      unlocked. */
  lemma ResetSetsPassword(cfg: Config, st: Store, token: string, newPassword: string, salt: seq<byte>, now: Time)
    requires StoreValid(st)
    requires ConfirmReset(cfg, st, token, newPassword, salt, now).result.Success?
    ensures var d := ResetDecision(cfg, st, token, newPassword, now);
            var out := ConfirmReset(cfg, st, token, newPassword, salt, now);
            d.Accept? && CheckActivation(st.activation, token, PasswordReset, now) == Some(d.rec)
            && d.k < |out.store.users| && out.store.users[d.k].id == d.rec.userId
            && var s := out.store.users[d.k].security;
               Verify(s.password, newPassword, cfg.kdf)
               && s.passwordHistory[0] == st.users[d.k].security.password && |s.passwordHistory| <= HistoryLimit
               && s.status == Active && s.failedLoginAttempts == 0 && s.accountLockedUntil.None?
  {
    var d := ResetDecision(cfg, st, token, newPassword, now);
    assert d.Accept?;
    var hash := Hash(newPassword, salt, cfg.kdf);
    assert ConfirmReset(cfg, st, token, newPassword, salt, now).store == ApplyReset(st, d.k, d.rec, hash, now);
    ResetDecisionChecksToken(cfg, st, token, newPassword, now);
    var u := st.users[d.k];
    assert u.security.Valid() by { assert u.Valid(); }
    VerifyHash(newPassword, salt, cfg.kdf);
  }

  /** An accepted reset names the record its token matches. */
  lemma ResetDecisionChecksToken(cfg: Config, st: Store, token: string, newPassword: string, now: Time)
    requires StoreValid(st)
    ensures var d := ResetDecision(cfg, st, token, newPassword, now);
            d.Accept? ==> CheckActivation(st.activation, token, PasswordReset, now) == Some(d.rec)
  {
  }

  /** After a successful reset no refresh token of the owner validates, and
      the reset token never validates again. */
  lemma ResetEndsAllSessions(cfg: Config, st: Store, token: string, newPassword: string, salt: seq<byte>, now: Time,
                             presented: string, later: Time, laterType: TokenType)
    requires StoreValid(st)
    requires ConfirmReset(cfg, st, token, newPassword, salt, now).result.Success?
    ensures var d := ResetDecision(cfg, st, token, newPassword, now);
            var out := ConfirmReset(cfg, st, token, newPassword, salt, now);
            var session := CheckRefresh(out.store.refresh, presented, later).record;
            d.Accept?
            && (session.Some? ==> session.value.userId != d.rec.userId)
            && CheckActivation(out.store.activation, token, laterType, later).None?
  {
    var d := ResetDecision(cfg, st, token, newPassword, now);
    assert d.Accept?;
    assert ConfirmReset(cfg, st, token, newPassword, salt, now).store
        == ApplyReset(st, d.k, d.rec, Hash(newPassword, salt, cfg.kdf), now);
    ResetDecisionChecksToken(cfg, st, token, newPassword, now);
    RevokeAllEndsSessions(st.refresh, d.rec.userId, now, presented, later);
    UsedTokenNeverValidates(st.activation, token, PasswordReset, now, now, later, laterType);
  }

  /** A reset request for an email no active user has writes nothing; for an
      active user's email it stores a reset token of that user which validates
      for one hour and no longer. */
  lemma ResetRequestIssuesToken(st: Store, email: string, secret: string, tokenId: string, now: Time, later: Time)
    requires FreshSecret(st.activation, secret, tokenId)
    ensures var after := RequestReset(st, email, secret, tokenId, now);
            match FindUser(st.users, ActiveByEmail(email))
            case None => after == st
            case Some(k) =>
              var rec := CheckActivation(after.activation, secret, PasswordReset, now);
              rec.Some? && rec.value.userId == st.users[k].id
              && (later > now + Hour ==> CheckActivation(after.activation, secret, PasswordReset, later).None?)
  {
    match FindUser(st.users, ActiveByEmail(email))
    case None =>
    case Some(k) =>
      var row := IssuedActivation(tokenId, st.users[k].id, secret, PasswordReset, now);
      IssuedActivationValidates(st.activation, row, secret, now);
  }

  // ---------------------------------------------------------------------------
  // Login, refresh, logout

  /** An email no user has is answered like a wrong password and writes nothing. */
  lemma UnknownEmailWritesNothing(cfg: Config, st: Store, email: string, password: string, ipAddress: string,
                                  userAgent: string, secret: string, familyId: string, tokenId: string, now: Time)
    requires forall i :: 0 <= i < |st.users| ==> st.users[i].details.email != email
    ensures Login(cfg, st, email, password, ipAddress, userAgent, secret, familyId, tokenId, now)
            == Outcome(st, Failure(Unauthorized(InvalidCredentials)))
  {
  }

  /** Only a password that verifies against the stored hash opens a session,
      and the session's refresh token then validates for that user. */
  lemma {:induction false} LoginNeedsPassword(cfg: Config, st: Store, email: string, password: string,
                                              ipAddress: string, userAgent: string, secret: string, familyId: string,
                                              tokenId: string, now: Time)
    requires StoreValid(st) && FreshRefresh(st.refresh, secret, tokenId)
    requires Login(cfg, st, email, password, ipAddress, userAgent, secret, familyId, tokenId, now).result.Success?
    ensures var out := Login(cfg, st, email, password, ipAddress, userAgent, secret, familyId, tokenId, now);
            var k := FindUser(st.users, ByEmail(email)).value;
            var rec := CheckRefresh(out.store.refresh, secret, now).record;
            Verify(st.users[k].security.password, password, cfg.kdf)
            && rec.Some? && rec.value.userId == st.users[k].id
  {
    var k := FindUser(st.users, ByEmail(email)).value;
    var u := st.users[k];
    if !Verify(u.security.password, password, cfg.kdf) {
      GrantedNeedsPassword(u.security, now);
      assert false;
    }
    IssuedTokenValidates(st.refresh, IssuedRefresh(tokenId, u.id, secret, familyId, ipAddress, userAgent, now),
                         secret, now);
  }

  /** After logout the presented refresh token never validates again. */
  lemma LogoutEndsSession(st: Store, token: string, now: Time, later: Time)
    requires StoreValid(st) && now <= later
    ensures CheckRefresh(AuthModel.Logout(st, token, now).refresh, token, later).record.None?
  {
    assert AuthModel.Logout(st, token, now).refresh == AfterLogout(st.refresh, token, now);
    LoggedOutTokenNeverValidates(st.refresh, token, now, later);
  }

  /** A successful refresh retires the presented token and hands out one that
      validates for the same user, in the same family. */
  lemma RefreshRotates(cfg: Config, st: Store, token: string, ipAddress: string, userAgent: string,
                       secret: string, tokenId: string, now: Time)
    requires StoreValid(st) && FreshRefresh(st.refresh, secret, tokenId)
    requires Refresh(cfg, st, token, ipAddress, userAgent, secret, tokenId, now).result.Success?
    ensures var out := Refresh(cfg, st, token, ipAddress, userAgent, secret, tokenId, now);
            var presented := CheckRefresh(st.refresh, token, now).record.value;
            var rec := CheckRefresh(out.store.refresh, secret, now).record;
            CheckRefresh(out.store.refresh, token, now).record.None?
            && rec.Some? && rec.value.userId == presented.userId && rec.value.familyId == presented.familyId
  {
    var j := FindRefresh(st.refresh, token).value;
    ReplayAfterRotationKillsFamily(st.refresh, j, token, secret, tokenId, ipAddress, userAgent, now, now, now);
    RotatedTokenValidates(st.refresh, j, tokenId, secret, ipAddress, userAgent, now);
  }
}
