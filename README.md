# Orange recruiting backend: authentication, sessions and the offer workflow

This project is a Dafny model of the security core of the NestJS backend of the
Orange recruiting platform, and of the offer, like and application rules built
on top of it.

- **Passwords** (`Passwords`, password.service.ts)
  - The policy check `validate` is a pure function that returns its list of errors.
  - `hash` and `verify` use a key-derivation function that is a parameter (PBKDF2 in the program).
  - `isInHistory` is a loop over the stored hashes.
- **Tokens** (`Tokens`, token.service.ts)
  - `TokenStore` is a class that holds the refresh-token table and the activation/reset-token table.
  - Refresh tokens are grouped into families and rotated.
  - Presenting a revoked refresh token revokes its whole family (reuse detection).
  - Activation and reset tokens are typed, expire, and can be used once.
- **Audit** (`Audit`, audit.service.ts)
  - `AuditService` is an append-only log.
  - The two queries sort the log newest first and take at most `limit` entries.
- **Users** (`Users`, user.entity.ts)
  - The `User` entity is a class with the entity's defaults and its email-normalisation hook.
  - A stored user is a `UserRow` value in the users table.
- **Authentication** (`Lockout`, `AuthModel`, `AuthProperties`, `Auth`, auth.service.ts)
  - `Lockout` is the login state machine: statuses PENDING/ACTIVE/SUSPENDED/LOCKED, five strikes, a 30-minute lock that is lifted lazily, and a password history of at most 5 entries.
  - `AuthModel` gives one function per operation over a snapshot of the users, refresh-token, activation-token and audit tables. It also proves that every operation keeps the tables' invariant (`StoreValid`).
  - `AuthProperties` proves what the operations promise: signup opens a session, activation and reset tokens are single-use, a reset ends every session, and so on.
  - `Auth.AuthService` is the service as a class over those tables. Each method is proved to leave exactly the state that the operation's function describes.
- **Workflow** (`Entities`, `Offers`, `Likes`, `Applications`)
  - Offers are created by department chiefs, edited by their owners, and approved or declined by HR.
  - What a user sees depends on their role.
  - A candidate likes or applies to an approved offer at most once.
  - Each service is a class whose methods are proved against pure specification functions.

Conventions:

- Time is an integer number of milliseconds passed in as `now`.
- Random values are parameters: salts, token secrets, family ids and row ids. Where the program relies on them being new, they carry freshness preconditions.
- The controllers' role guards become preconditions of the service methods.

## Model

| member | source | states |
|---|---|---|
| `Passwords.Hash` | backend/src/auth/services/password.service.ts:20-31 | the stored record splits at ':' into exactly the hex salt and the hex derived key, and a 16-byte salt gives 32 hex digits |
| `Passwords.VerifyHash` | backend/src/auth/services/password.service.ts:20-41 | verifying a password against its own hash always succeeds |
| `Passwords.VerifyHashIff` | backend/src/auth/services/password.service.ts:33-41 | a candidate verifies against a hash exactly when it derives the same key under that salt |
| `Passwords.VerifyRejectsOtherPassword` | backend/src/auth/services/password.service.ts:33-41 | with a collision-free key derivation, no other password verifies |
| `Passwords.EmailLocalPart` | backend/src/auth/services/password.service.ts:77 | the text before the first '@' (the whole email when there is none) |
| `Passwords.IsCommon` | backend/src/auth/services/password.service.ts:70-73 | true exactly when the lowercased password contains some lowercased blacklist entry |
| `Passwords.MentionsUser` | backend/src/auth/services/password.service.ts:76-83 | true exactly when the lowercased password contains the email's local part, first name or last name, lowercased |
| `Passwords.Validate` | backend/src/auth/services/password.service.ts:46-85 | `valid` holds exactly when the error list is empty |
| `Passwords.ValidateReports` | backend/src/auth/services/password.service.ts:50-85 | at most four errors, in length/complexity/blacklist/personal order, each reported exactly when its rule is broken (under 12 UTF-16 code units, as `length` counts them, under 3 of 4 character classes, a blacklisted word, personal info only when a user is given) |
| `Text.Utf16Length` | backend/src/auth/services/password.service.ts:53 | `length` counts between one and two code units per character, and equals the character count exactly when no character lies outside the Basic Multilingual Plane |
| `Text.Utf16LengthAppend` | backend/src/auth/services/password.service.ts:53 | the code units of a concatenation add up |
| `Passwords.LengthCountsCodeUnits` | backend/src/auth/services/password.service.ts:53 | "Aa1!" followed by four characters outside the Basic Multilingual Plane has 8 characters but 12 code units, so the length rule accepts it |
| `Passwords.ViolationsOrdered` | backend/src/auth/services/password.service.ts:52-83 | the reported errors keep the order in which the rules are checked |
| `Passwords.IsInHistory` | backend/src/auth/services/password.service.ts:91-102 | false on an empty history; otherwise true exactly when the password verifies against some stored hash |
| `Users.NormalizeEmail` | backend/src/entities/user.entity.ts:101-105 | the result is lowercase and trimmed, and it occurs inside the lowercased input |
| `Users.NormalizeEmailIdempotent` | backend/src/entities/user.entity.ts:101-105 | normalising twice gives the same email as normalising once |
| `Users.NormalizedIsFixed` | backend/src/entities/user.entity.ts:101-105 | an email is normalised exactly when the hook leaves it unchanged |
| `Users.User.constructor` | backend/src/entities/user.entity.ts:53-96 | a new user is PENDING, with 0 failed attempts and 0 lockouts, no lock, no last login, an empty history, MFA off and every timestamp at creation time |
| `Users.User.NormalizeStoredEmail` | backend/src/entities/user.entity.ts:101-105 | the email becomes its normalised form and no other field changes |
| `Users.User.FullName` | backend/src/entities/user.entity.ts:107-109 | the first name, one space, then the last name |
| `Tokens.Lifetime` | backend/src/auth/services/token.service.ts:150-152 | activation tokens last 48 hours and reset tokens 1 hour |
| `Tokens.FindRefresh` | backend/src/auth/services/token.service.ts:62-67 | finds a row with the presented token's hash, or reports that none has it |
| `Tokens.Revoke` | backend/src/auth/services/token.service.ts:123-138 | only unrevoked rows in the family or of the user get `revokedAt = now`; already-revoked rows keep their time and every other row and column is unchanged |
| `Tokens.RevokeKeepsValid` | backend/src/auth/services/token.service.ts:123-138 | a bulk revocation keeps ids and hashes unique and each family on one user |
| `Tokens.CheckRefresh` | backend/src/auth/services/token.service.ts:61-86 | a token is accepted exactly when its row exists, is unrevoked and `now <= expiresAt`; a revoked row revokes its whole family; otherwise the table is unchanged |
| `Tokens.CheckRefreshKeepsValid` | backend/src/auth/services/token.service.ts:61-86 | validation keeps the refresh table's invariant |
| `Tokens.RevokedRowNeverValidates` | backend/src/auth/services/token.service.ts:74-78 | once its family is revoked, a token is refused at any later time |
| `Tokens.LoggedOutTokenNeverValidates` | backend/src/auth/auth.service.ts:402-415 | after logout the presented token is refused at any later time |
| `Tokens.RevokeAllEndsSessions` | backend/src/auth/services/token.service.ts:133-138 | after revoking a user's tokens, no token of that user validates |
| `Tokens.Rotate` | backend/src/auth/services/token.service.ts:91-118 | the old row is revoked, the others are untouched, and exactly one new unrevoked row is added in the same family for the same user, expiring in 7 days |
| `Tokens.RotateKeepsValid` | backend/src/auth/services/token.service.ts:91-118 | rotation keeps the refresh table's invariant |
| `Tokens.RotatedTokenValidates` | backend/src/auth/services/token.service.ts:91-118 | the rotated-in token validates, answering the new row |
| `Tokens.ReplayAfterRotationKillsFamily` | backend/src/auth/services/token.service.ts:74-78 | replaying the rotated-out token is refused and also kills its successor |
| `Tokens.IssuedTokenValidates` | backend/src/auth/services/token.service.ts:33-56 | a freshly issued refresh token validates, answering its row |
| `Tokens.AddRefreshKeepsValid` | backend/src/auth/services/token.service.ts:33-56 | a fresh row in a fresh family keeps the refresh table's invariant |
| `Tokens.CheckActivation` | backend/src/auth/services/token.service.ts:168-194 | accepted exactly when a row with the hash and type exists, is unused and `now <= expiresAt` |
| `Tokens.AddActivationKeepsValid` | backend/src/auth/services/token.service.ts:143-163 | a row with a fresh secret and id keeps the activation table's invariant |
| `Tokens.IssuedActivationValidates` | backend/src/auth/services/token.service.ts:143-163 | a freshly issued activation or reset token validates for its own type |
| `Tokens.MarkUsed` | backend/src/auth/services/token.service.ts:199-201 | only the row with the id gets `usedAt = now` |
| `Tokens.MarkUsedKeepsValid` | backend/src/auth/services/token.service.ts:199-201 | marking a token used keeps the activation table's invariant |
| `Tokens.UsedTokenNeverValidates` | backend/src/auth/services/token.service.ts:184-186 | a token marked used never validates again, for any type and time |
| `Tokens.TokenStore.CreateRefreshToken` | backend/src/auth/services/token.service.ts:33-56 | returns the secret and appends one row holding its hash, in a fresh family, unrevoked, expiring in 7 days |
| `Tokens.TokenStore.ValidateRefreshToken` | backend/src/auth/services/token.service.ts:61-86 | answers and leaves the table as `CheckRefresh` says |
| `Tokens.TokenStore.RotateRefreshToken` | backend/src/auth/services/token.service.ts:91-118 | the table becomes `Rotate` of the presented row, and the new secret is returned |
| `Tokens.TokenStore.RevokeTokenFamily` | backend/src/auth/services/token.service.ts:123-128 | the refresh table becomes the family's revocation and the activation table is unchanged |
| `Tokens.TokenStore.RevokeAllUserTokens` | backend/src/auth/services/token.service.ts:133-138 | the refresh table becomes the user's revocation and the activation table is unchanged |
| `Tokens.TokenStore.CreateActivationToken` | backend/src/auth/services/token.service.ts:143-163 | appends one typed row holding the secret's hash, expiring after the type's lifetime, and returns the secret |
| `Tokens.TokenStore.ValidateActivationToken` | backend/src/auth/services/token.service.ts:168-194 | answers what `CheckActivation` says and changes nothing |
| `Tokens.TokenStore.MarkTokenAsUsed` | backend/src/auth/services/token.service.ts:199-201 | the activation table becomes `MarkUsed` of the id |
| `Tokens.TokenStore.CleanupExpiredTokens` | backend/src/auth/services/token.service.ts:206-222 | keeps exactly the refresh rows not yet expired and the activation rows expired at most 7 days ago or not yet expired |
| `Audit.IsHighSeverity` | backend/src/auth/services/audit.service.ts:44-48 | true exactly for the three listed actions; ACCOUNT_LOCKED and LOGIN_FAILED are not high severity |
| `Audit.Entry` | backend/src/auth/services/audit.service.ts:24-33 | the entry copies the event's fields, takes `action` as its type and `now` as its time, and defaults severity to INFO |
| `Audit.AuditService.Log` | backend/src/auth/services/audit.service.ts:23-42 | appends exactly one entry and keeps every earlier one |
| `Audit.AuditService.GetUserLogs` | backend/src/auth/services/audit.service.ts:50-56 | `min(limit, number of the user's entries)` entries (the limit defaults to 100), or every entry of the user when the limit is 0 and the `take` is dropped; all of that user, newest first, drawn from the log, and no left-out entry of the user is newer than one kept |
| `Audit.AuditService.GetRecentEvents` | backend/src/auth/services/audit.service.ts:58-64 | `min(limit, size)` entries (the limit defaults to 100), or the whole log when the limit is 0 and the `take` is dropped; newest first, drawn from the log, and no entry left out is newer than one kept |
| `Lockout.LockInForceIgnoresPassword` | backend/src/auth/auth.service.ts:267-271 | while the lock is in force the answer is "locked until", whatever the password, and nothing changes |
| `Lockout.InactiveAccountsIgnorePassword` | backend/src/auth/auth.service.ts:281-287 | suspended or pending accounts are refused with their own message, whatever the password, and nothing changes |
| `Lockout.ExpiredLockIsLiftedFirst` | backend/src/auth/auth.service.ts:272-278 | a lapsed lock is reset to ACTIVE with 0 failures and no lock time before the password is checked |
| `Lockout.WrongPassword` | backend/src/auth/auth.service.ts:295-329 | a wrong password adds exactly one failure; at 5 or more the account locks for 30 minutes and the lockout count grows by one, otherwise only the counter changes |
| `Lockout.RightPassword` | backend/src/auth/auth.service.ts:331-334 | a correct password on an active account resets failures to 0 and records the login time |
| `Lockout.GrantedNeedsPassword` | backend/src/auth/auth.service.ts:289-329 | no login step is granted without the correct password |
| `Lockout.LoginStepKeepsValid` | backend/src/auth/auth.service.ts:266-334 | a login step never touches the password or its history and keeps a lock time on every locked account |
| `Lockout.FiveStrikes` | backend/src/auth/auth.service.ts:295-316 | five wrong passwords lock the account until the fifth attempt plus 30 minutes; before then even the right password is refused, from then on it is accepted |
| `Lockout.WrongPasswordLooksLikeUnknownEmail` | backend/src/auth/auth.service.ts:318-328 | a non-locking wrong password gets the same "Invalid credentials" as an unknown email |
| `Lockout.PushHistory` | backend/src/auth/auth.service.ts:505-510 | the old hash goes first, followed by the older entries, trimmed to the 5 newest |
| `Lockout.PushAllKeepsNewest` | backend/src/auth/auth.service.ts:505-510 | after any series of resets the history holds the 5 newest prior hashes, newest first |
| `AuthModel.Claims` | backend/src/auth/auth.service.ts:541-552 | the access token names the user's id, email and role, expires in 15 minutes, and carries the department only when it exists |
| `AuthModel.Profile` | backend/src/auth/auth.service.ts:557-568 | the profile copies id, email, names, role, last login and MFA flag, and the department's name when there is one |
| `AuthModel.AsWrittenCheckAdmitsCollision` | backend/src/auth/auth.service.ts:54-56 | the duplicate check on the raw email misses "A@x.com" when "a@x.com" is stored, although it normalises to a stored email |
| `AuthModel.EmailTaken` | backend/src/auth/auth.service.ts:54-60 | the corrected duplicate check (see Findings): taken exactly when some stored email equals the normalised new email |
| `AuthModel.EmailTakenRefinesAsWritten` | backend/src/auth/auth.service.ts:143-149 | over normalised stored emails, everything the raw check refuses the corrected check refuses too |
| `AuthModel.EmailTakenKeepsEmailsUnique` | backend/src/entities/user.entity.ts:19-20 | inserting an email that passes the check keeps stored emails unique |
| `AuthModel.RegistrationError` | backend/src/auth/auth.service.ts:142-163 | Conflict when the email is taken under the corrected check, then BadRequest for a chief without a department, then BadRequest for an unknown role, and no error exactly when all three pass |
| `AuthModel.ActivateDecision` | backend/src/auth/auth.service.ts:210-225 | an accepted activation names a stored user and the token row that is theirs |
| `AuthModel.ResetDecision` | backend/src/auth/auth.service.ts:478-503 | an accepted reset names a stored user and the reset-token row that is theirs |
| `AuthModel.NewRowValid` | backend/src/auth/auth.service.ts:89-99 | a newly created row has a normalised email, an empty history and is not locked |
| `AuthModel.SignupKeepsValid` | backend/src/auth/auth.service.ts:48-133 | signup keeps the tables' invariant: valid rows, unique ids and emails, valid token tables, every refresh, activation and reset token owned by a stored user |
| `AuthModel.RegisterKeepsValid` | backend/src/auth/auth.service.ts:138-201 | creating a user keeps the tables' invariant |
| `AuthModel.ActivateKeepsValid` | backend/src/auth/auth.service.ts:206-245 | activation keeps the tables' invariant |
| `AuthModel.LoginKeepsValid` | backend/src/auth/auth.service.ts:250-360 | login keeps the tables' invariant |
| `AuthModel.RefreshKeepsValid` | backend/src/auth/auth.service.ts:365-397 | refreshing keeps the tables' invariant |
| `AuthModel.LogoutKeepsValid` | backend/src/auth/auth.service.ts:402-415 | logout keeps the tables' invariant |
| `AuthModel.RequestResetKeepsValid` | backend/src/auth/auth.service.ts:436-470 | a reset request keeps the tables' invariant |
| `AuthModel.ConfirmResetKeepsValid` | backend/src/auth/auth.service.ts:475-536 | a reset keeps the tables' invariant, history of at most 5 included |
| `AuthProperties.SignupRefusesOrSucceeds` | backend/src/auth/auth.service.ts:53-101 | signup fails exactly when one of its checks refuses, with that check's error, or when the department id names no department and the insert breaks the foreign key (an internal error); a failed signup writes nothing |
| `AuthProperties.RegisterRefusesOrSucceeds` | backend/src/auth/auth.service.ts:142-177 | `createUser` fails exactly when one of its checks refuses, with that check's error, or when the department id names no department and the insert breaks the foreign key (an internal error); a failed call writes nothing |
| `AuthProperties.SignupOpensSession` | backend/src/auth/auth.service.ts:88-133 | a signup that passes its checks and names a known department (or none) stores one ACTIVE user, found by normalised email, whose password verifies, and returns a refresh token that validates for that user |
| `AuthProperties.CreatedUserCanActivate` | backend/src/auth/auth.service.ts:138-201 | when the checks pass and the department is known (or none), the created user is PENDING, and the returned link carries a token that validates for that user until the announced expiry |
| `AuthProperties.ActivationIsSingleUse` | backend/src/auth/auth.service.ts:206-245 | a successful activation consumed a valid token of the user, made them ACTIVE with the new password, and the token never validates again |
| `AuthProperties.ActivationRefusalWritesNothing` | backend/src/auth/auth.service.ts:209-225 | a refused activation writes nothing, and an invalid token gets "Invalid or expired activation token" |
| `AuthProperties.ResetOutcomes` | backend/src/auth/auth.service.ts:478-503 | an invalid token, a policy failure and a reused password each refuse with their own message and write nothing; otherwise the reset succeeds |
| `AuthProperties.ResetSetsPassword` | backend/src/auth/auth.service.ts:505-520 | after a reset the new password verifies, the old hash heads a history of at most 5, and the account is ACTIVE with 0 failures and no lock |
| `AuthProperties.ResetEndsAllSessions` | backend/src/auth/auth.service.ts:522-526 | after a reset no refresh token of the user validates and the reset token never validates again |
| `AuthProperties.ResetRequestIssuesToken` | backend/src/auth/auth.service.ts:439-469 | no ACTIVE user with the email means nothing is written; otherwise a reset token for that user validates for one hour and then no longer |
| `AuthProperties.UnknownEmailWritesNothing` | backend/src/auth/auth.service.ts:256-264 | an unknown email gets "Invalid credentials" and writes nothing |
| `AuthProperties.LoginNeedsPassword` | backend/src/auth/auth.service.ts:289-342 | a successful login had the right password and issued a refresh token that validates for that user |
| `AuthProperties.LogoutEndsSession` | backend/src/auth/auth.service.ts:402-415 | after logout the presented token never validates again |
| `AuthProperties.RefreshRotates` | backend/src/auth/auth.service.ts:370-396 | after a refresh the presented token no longer validates and the new one validates for the same user and family |
| `Auth.AuthService.PublicSignup` | backend/src/auth/auth.service.ts:48-133 | the tables and the answer are those of `AuthModel.Signup`, which uses the corrected duplicate check and fails with an internal error on an unknown department, and the invariant is kept |
| `Auth.AuthService.CreateUser` | backend/src/auth/auth.service.ts:138-201 | the tables and the answer are those of `AuthModel.Register`, which uses the corrected duplicate check and fails with an internal error on an unknown department, and the invariant is kept |
| `Auth.AuthService.ActivateAccount` | backend/src/auth/auth.service.ts:206-245 | the tables and the answer are those of `AuthModel.Activate`, and the invariant is kept |
| `Auth.AuthService.AttemptLogin` | backend/src/auth/auth.service.ts:266-334 | the step taken is the lockout machine's step on the verified password |
| `Auth.AuthService.Login` | backend/src/auth/auth.service.ts:250-360 | the tables and the answer are those of `AuthModel.Login`, and the invariant is kept |
| `Auth.AuthService.RefreshToken` | backend/src/auth/auth.service.ts:365-397 | the tables and the answer are those of `AuthModel.Refresh`, and the invariant is kept |
| `Auth.AuthService.Logout` | backend/src/auth/auth.service.ts:402-415 | the tables are those of `AuthModel.Logout`, and the message is always "Logged out successfully" |
| `Auth.AuthService.GetCurrentUser` | backend/src/auth/auth.service.ts:420-431 | NotFound exactly when no row has the id; otherwise that row's profile |
| `Auth.AuthService.RequestPasswordReset` | backend/src/auth/auth.service.ts:436-470 | the tables are those of `AuthModel.RequestReset`, and the message is the same whether or not the email exists |
| `Auth.AuthService.ConfirmPasswordReset` | backend/src/auth/auth.service.ts:475-536 | the tables and the answer are those of `AuthModel.ConfirmReset`, and the invariant is kept |
| `Offers.ResolveTopicsIff` | backend/src/offers/offers.service.ts:32-38 | the topic lookup succeeds exactly when the ids are distinct and all exist; it then yields exactly those topics |
| `Offers.CreateOutcomes` | backend/src/offers/offers.service.ts:26-50 | no department gives BadRequest; then bad topic ids give BadRequest; otherwise a PENDING offer by the user, in their department, with exactly the named topics |
| `Offers.CreateKeepsValid` | backend/src/offers/offers.service.ts:40-49 | with at most 3 topic ids, every stored offer keeps at most 3 topics from the topic table |
| `Offers.EditOutcomes` | backend/src/offers/offers.service.ts:149-184 | a non-owner gets Forbidden; title and description change only when given and non-empty, topics only when all ids resolve; DECLINED becomes PENDING and other statuses stay; the update time becomes `now` exactly when the title, description or status changed, and stays otherwise (a save that changes no column issues no UPDATE) |
| `Offers.UpdateKeepsValid` | backend/src/offers/offers.service.ts:163-176 | an update keeps every stored offer's topics valid |
| `Offers.DeclinedOfferIsResubmitted` | backend/src/offers/offers.service.ts:178-181 | a declined offer that its owner edits is PENDING again, is saved in place and is not public |
| `Offers.ReviewOutcomes` | backend/src/offers/offers.service.ts:189-218 | NotFound exactly when no offer has the id; otherwise that offer with the new status, whatever its old one, and the update time moves to `now` only when the status changed |
| `Offers.ReviewIsIdempotent` | backend/src/offers/offers.service.ts:189-218 | approving an approved offer or declining a declined one leaves the table as it was, update time included |
| `Offers.ReviewKeepsValid` | backend/src/offers/offers.service.ts:189-218 | approving or declining keeps the offers' topics valid |
| `Offers.ApplicantCount` | backend/src/offers/offers.service.ts:93-107 | the number of applications to the offer is at most the table's size |
| `Offers.NoApplicantIff` | backend/src/offers/offers.service.ts:103-107 | the count is 0 exactly when no application names the offer |
| `Offers.Views` | backend/src/offers/offers.service.ts:92-117 | one view per listed offer, with an applicant count for every role except candidates |
| `Offers.ListingIsVisibleOffers` | backend/src/offers/offers.service.ts:69-90 | the listing is newest first and holds exactly the offers the role may see, each as often as stored |
| `Offers.AsWrittenFailsForChiefWithoutOffers` | backend/src/offers/offers.service.ts:99 | as written, a chief with no offers gets an error instead of an empty list |
| `Offers.FindAllAnswers` | backend/src/offers/offers.service.ts:69-118 | exactly the visible offers, newest first, with the applicant count present exactly for non-candidates |
| `Offers.FindAllRefinesAsWritten` | backend/src/offers/offers.service.ts:93-114 | wherever the code as written answers, the corrected listing answers the same; where it fails, the corrected listing is empty |
| `Offers.FindPublic` | backend/src/offers/offers.service.ts:55-61 | exactly the APPROVED offers, each as often as stored, newest first |
| `Offers.CandidateSeesPublicListing` | backend/src/offers/offers.service.ts:72-77 | a candidate's listing is the public listing, with no applicant counts |
| `Offers.FindOne` | backend/src/offers/offers.service.ts:123-144 | success exactly when the offer exists and the role may see it; a missing offer and, for non-chiefs, a hidden one are NotFound; a chief asking for another's offer gets Forbidden |
| `Offers.OffersService.Create` | backend/src/offers/offers.service.ts:26-50 | answers `Created` and appends the new offer only on success; the topic invariant is kept |
| `Offers.OffersService.Update` | backend/src/offers/offers.service.ts:149-184 | answers `Updated` and saves the edited offer in place only on success, with the update time moved only when a column changed; the topic invariant is kept |
| `Offers.OffersService.Approve` | backend/src/offers/offers.service.ts:189-201 | answers `Reviewed` with APPROVED and saves it in place; the update time moves only when the status was not already APPROVED |
| `Offers.OffersService.Decline` | backend/src/offers/offers.service.ts:206-218 | answers `Reviewed` with DECLINED and saves it in place; the update time moves only when the status was not already DECLINED |
| `Likes.FindMyLikes` | backend/src/likes/likes.service.ts:67-73 | exactly the user's likes, each as often as stored, newest first |
| `Likes.LikeOutcomes` | backend/src/likes/likes.service.ts:22-47 | NotFound exactly when no approved offer has the id, Conflict exactly when the pair is already liked, otherwise the new row of the pair |
| `Likes.LikeKeepsOnePerPair` | backend/src/likes/likes.service.ts:33-46 | liking keeps at most one like per (candidate, offer) |
| `Likes.UnlikeOutcomes` | backend/src/likes/likes.service.ts:52-62 | NotFound exactly when the pair has no like, then nothing changes; otherwise exactly that one row is removed and the pair has none |
| `Likes.UnlikeKeepsOnePerPair` | backend/src/likes/likes.service.ts:52-62 | unliking keeps at most one like per pair |
| `Likes.UnlikeUndoesLike` | backend/src/likes/likes.service.ts:22-62 | a like followed by an unlike of the same pair restores the table |
| `Likes.LikesService.Like` | backend/src/likes/likes.service.ts:22-47 | answers `Liked` and appends the row only on success; one like per pair is kept |
| `Likes.LikesService.Unlike` | backend/src/likes/likes.service.ts:52-62 | answers `Unliked` and the table becomes `Removed`; one like per pair is kept |
| `Applications.FindMyApplications` | backend/src/applications/applications.service.ts:54-60 | exactly the user's applications, each as often as stored, newest first |
| `Applications.ApplyOutcomes` | backend/src/applications/applications.service.ts:23-48 | NotFound exactly when no approved offer has the id, Conflict exactly when the candidate already applied, otherwise a SUBMITTED application of the pair |
| `Applications.ApplyKeepsOnePerPair` | backend/src/applications/applications.service.ts:33-48 | applying keeps at most one application per (candidate, offer), with no table constraint to rely on |
| `Applications.SecondApplicationConflicts` | backend/src/applications/applications.service.ts:34-40 | after applying, the candidate's list shows the application and a second attempt is a Conflict |
| `Applications.ApplicationsService.Apply` | backend/src/applications/applications.service.ts:23-48 | answers `Applied` and appends the row only on success; one application per pair is kept |

## Left out

- The frontend, the controllers, the modules and the bootstrap code are not part of this model. These are HTTP, cookie and dependency-injection wiring. Role guards appear as preconditions. `approve` and `decline` take no caller, so their HR-only guard has nothing to attach to.
- Cryptography is not modelled. PBKDF2 (section 5.2 of RFC 8018) is a function parameter, assumed collision-free only where a lemma says so. SHA-256 (FIPS 180-4) is an injective constructor.
- Randomness is not modelled. `randomBytes` and `randomUUID` values are parameters. JWT signing (RFC 7519) is replaced by the claims it would sign.
- The clock is the `now` parameter. Dates are integers, so calendar arithmetic is not modelled: "7 days" is 7 × 24 hours.
- Each call runs sequentially and atomically. This leaves out the read-modify-write race on `failedLoginAttempts` and the non-atomic revoke-then-insert of rotation.
- `Text.ToLower`, `Users.NormalizeEmail`, `Passwords.IsCommon` and `Passwords.MentionsUser` lowercase the ASCII letters only, and `Text.Trim` removes the whitespace that JavaScript's `trim` removes. Unicode case mapping is not modelled, so these members leave non-ASCII letters as they are.
- The "Account locked until" message renders the time as the decimal count of milliseconds rather than as ISO 8601 text.
- `lockoutCount24h` and `lastLockoutReset` are only incremented. The code shown never reads or resets them.
- The console alert for high-severity audit events is output only. Audit row ids are not modelled either.
- Emails with activation or reset links are not sent by the code shown (TODOs), so they are not modelled.
- `AuthModel.EmailTaken`, `AuthModel.RegistrationError`, `AuthModel.Signup`, `AuthModel.Register`, `Auth.AuthService.PublicSignup` and `Auth.AuthService.CreateUser` use the corrected, normalised duplicate check. For an email that differs from a stored one only in case or surrounding spaces, the code as written passes its check and then fails on the unique column with an unhandled error. The model answers Conflict instead. `AuthModel.EmailTakenAsWritten` and `AuthModel.AsWrittenCheckAdmitsCollision` model the code as written.
- `AuthModel.Signup`, `Auth.AuthService.PublicSignup`, `AuthProperties.SignupRefusesOrSucceeds` and `AuthProperties.SignupOpensSession` take the role and the department id as inputs. The only caller, the `signup` endpoint (backend/src/auth/auth.controller.ts:55-67), passes a candidate form that has neither field, and the whitelisting validation pipe refuses a body that carries them. In the program the role lookup at backend/src/auth/auth.service.ts:68-70 therefore runs on an undefined name, and which role row it finds, if any, is decided by the ORM and not by this code. The model also adds `Candidate` to `RoleType`, which the roles enum of backend/src/entities/role.entity.ts:4-9 lacks, although the offers service compares roles against it.
- `Offers.Stamped` treats a change to the topics alone as no change of the offer's row, because topics live in the `offer_topics` join table. Whether the ORM then touches `updatedAt` is not decided by this code.
- Login looks users up by the email exactly as typed, as the code does. A mixed-case login email therefore finds no normalised row.
- The `TempPassword123!` fallback of signup is modelled, but no property rests on it.
- Activation does not check the account's status, as in the code. A suspended user with a valid activation token becomes ACTIVE.
- The current password hash is not consulted by the reuse check, as in the code. Only the history is.
- `passwordHistory` is stored as a simple-array column. The model keeps it as a sequence and does not model the comma-joined text.
- A user read inside the auth operations is a value row of the users table. The `Users.User` class models the entity's own defaults and its hook.
- Each operation of `Auth.AuthService` is split into a method that checks and a method that saves, so that each proof stays small. The order of the writes within one call is not observable in the model.
- The relations TypeORM loads alongside a row are not projected: `department`, `createdBy` and `topics` as objects. An offer holds its topics and the ids of its creator and department.
- DTO validation is not modelled apart from the cap of three topic ids (`@ArrayMaxSize(3)`), which is a precondition. String lengths and formats are not.
- `findAll` receives the applications table as a parameter, and the query-builder count becomes a filter count.
- `Offers.OffersService` is built on a fixed topic table. Topics are never created or changed by the core.

## Findings

| source | as written | input that shows it | evidently intended | confidence | as-written member | corrected member |
|---|---|---|---|---|---|---|
| backend/src/auth/auth.service.ts:54-56 | The duplicate check looks up the email as given. The entity's insert hook lowercases and trims it only afterwards. | Stored "a@x.com", signup with "A@x.com": the check finds nothing and the insert hits the unique column. | Compare the normalised email, so that the Conflict answer covers every duplicate. | not executed | `AuthModel.AsWrittenCheckAdmitsCollision` | `AuthModel.EmailTakenKeepsEmailsUnique` |
| backend/src/offers/offers.service.ts:99 | With no offers, the applicant-count query binds the placeholder 'none' to the uuid column `offerId`. | A department chief with no offers calls `findAll`: PostgreSQL rejects 'none' as a uuid and the call fails. | An empty listing with no counts. | not executed; rests on PostgreSQL refusing 'none' as a uuid | `Offers.AsWrittenFailsForChiefWithoutOffers` | `Offers.FindAllAnswers` |
