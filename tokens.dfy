/** The token service: rotating refresh tokens grouped into families, with
    reuse detection, and single-use typed activation / password-reset tokens.
    Only digests of secrets are stored. */
module Tokens {
  import opened Common
  import opened Seqs

  /** `hashToken`: SHA-256 (FIPS 180-4) in hex, taken as an injective function.
      A digest records which secret it came from and nothing else tells two
      digests apart. */
  datatype Digest = Sha256Hex(secret: string)

  function HashToken(token: string): Digest
  {
    Sha256Hex(token)
  }

  /** `expiresAt.setDate(getDate() + 7)`. */
  const RefreshLifetime: int := 7 * Day

  /** Age past expiry after which an activation row is deleted. */
  const ActivationRetention: int := 7 * Day

  datatype RefreshToken = RefreshToken(
    id: string,
    userId: string,
    tokenHash: Digest,
    familyId: string,
    expiresAt: Time,
    revokedAt: Option<Time>,
    ipAddress: string,
    userAgent: string)

  datatype TokenType = Activation | PasswordReset

  /** 48 hours for activation, one hour for password reset. */
  function Lifetime(t: TokenType): (d: int)
    ensures d > 0
    ensures t == Activation ==> d == 48 * Hour
    ensures t == PasswordReset ==> d == Hour
  {
    match t
    case Activation => 48 * Hour
    case PasswordReset => Hour
  }

  datatype ActivationToken = ActivationToken(
    id: string,
    userId: string,
    tokenHash: Digest,
    tokenType: TokenType,
    expiresAt: Time,
    usedAt: Option<Time>)

  // ---------------------------------------------------------------------------
  // Table invariants

  /** Two refresh rows: distinct ids and digests; within a family, the same
      user and at most one of the two still unrevoked. */
  predicate RefreshCompatible(a: RefreshToken, b: RefreshToken)
  {
    a.id != b.id && a.tokenHash != b.tokenHash
    && (a.familyId == b.familyId ==> a.userId == b.userId && (a.revokedAt.Some? || b.revokedAt.Some?))
  }

  predicate ActivationCompatible(a: ActivationToken, b: ActivationToken)
  {
    a.id != b.id && a.tokenHash != b.tokenHash
  }

  ghost predicate RefreshTableValid(rows: seq<RefreshToken>)
  {
    Pairwise(rows, RefreshCompatible)
  }

  ghost predicate ActivationTableValid(rows: seq<ActivationToken>)
  {
    Pairwise(rows, ActivationCompatible)
  }

  // ---------------------------------------------------------------------------
  // Refresh tokens as a function of the table

  /** The row `findOne({ where: { tokenHash } })` returns. */
  function FindRefresh(rows: seq<RefreshToken>, token: string): (k: Option<nat>)
    ensures k.Some? ==> k.value < |rows| && rows[k.value].tokenHash == HashToken(token)
    ensures k.None? <==> forall i :: 0 <= i < |rows| ==> rows[i].tokenHash != HashToken(token)
  {
    FindFirst(rows, (row: RefreshToken) => row.tokenHash == HashToken(token))
  }

  /** Which rows a bulk revocation selects. */
  datatype Scope = Family(familyId: string) | OwnedBy(userId: string)

  predicate InScope(row: RefreshToken, scope: Scope)
  {
    match scope
    case Family(f) => row.familyId == f
    case OwnedBy(u) => row.userId == u
  }

  function RevokeRow(row: RefreshToken, scope: Scope, now: Time): RefreshToken
  {
    if InScope(row, scope) && row.revokedAt.None? then row.(revokedAt := Some(now)) else row
  }

  /** `update({ <scope>, revokedAt: null }, { revokedAt: now })`: afterwards every
      row in scope is revoked; rows revoked before keep their timestamp; rows out
      of scope and every other column are untouched. */
  function Revoke(rows: seq<RefreshToken>, scope: Scope, now: Time): (r: seq<RefreshToken>)
    ensures |r| == |rows|
    ensures forall i :: 0 <= i < |r| ==> r[i] == rows[i].(revokedAt := r[i].revokedAt)
    ensures forall i :: 0 <= i < |r| ==> (r[i].revokedAt.Some? <==> rows[i].revokedAt.Some? || InScope(rows[i], scope))
    ensures forall i :: 0 <= i < |r| && (rows[i].revokedAt.Some? || !InScope(rows[i], scope)) ==> r[i] == rows[i]
    ensures forall i :: 0 <= i < |r| && r[i] != rows[i] ==> r[i].revokedAt == Some(now)
  {
    seq(|rows|, i requires 0 <= i < |rows| => RevokeRow(rows[i], scope, now))
  }

  /** Revocation keeps the table invariant: it only ever sets `revokedAt`. */
  lemma RevokeKeepsValid(rows: seq<RefreshToken>, scope: Scope, now: Time)
    requires RefreshTableValid(rows)
    ensures RefreshTableValid(Revoke(rows, scope, now))
  {
    var r := Revoke(rows, scope, now);
    forall i, j | 0 <= i < j < |r| ensures RefreshCompatible(r[i], r[j]) {
      assert RefreshCompatible(rows[i], rows[j]);
    }
  }

  /** What `validateRefreshToken` answers and the table it leaves behind. */
  datatype RefreshCheck = RefreshCheck(record: Option<RefreshToken>, rows: seq<RefreshToken>)

  /** `validateRefreshToken`: unknown digest, null; a revoked row is a reuse, which
      revokes its whole family and answers null; an expired row, null; otherwise
      the row. Only a reuse changes the table. */
  function CheckRefresh(rows: seq<RefreshToken>, token: string, now: Time): (c: RefreshCheck)
    ensures c.record.Some? ==> c.record.value in rows && c.record.value.tokenHash == HashToken(token)
                               && c.record.value.revokedAt.None? && now <= c.record.value.expiresAt
    ensures RefreshTableValid(rows) ==>
              (c.record.Some? <==> exists i :: 0 <= i < |rows| && rows[i].tokenHash == HashToken(token)
                                        && rows[i].revokedAt.None? && now <= rows[i].expiresAt)
    ensures RefreshTableValid(rows) ==>
              forall i :: 0 <= i < |rows| && rows[i].tokenHash == HashToken(token) && rows[i].revokedAt.Some?
                ==> c.rows == Revoke(rows, Family(rows[i].familyId), now)
    ensures (forall i :: 0 <= i < |rows| && rows[i].tokenHash == HashToken(token) ==> rows[i].revokedAt.None?)
              ==> c.rows == rows
    ensures c.record.Some? ==> c.rows == rows
    ensures |c.rows| == |rows| && forall i :: 0 <= i < |rows| ==> c.rows[i].userId == rows[i].userId
    ensures c.record.Some? ==> FindRefresh(rows, token).Some? && c.record.value == rows[FindRefresh(rows, token).value]
  {
    match FindRefresh(rows, token)
    case None => RefreshCheck(None, rows)
    case Some(k) =>
      var row := rows[k];
      if row.revokedAt.Some? then RefreshCheck(None, Revoke(rows, Family(row.familyId), now))
      else if row.expiresAt < now then RefreshCheck(None, rows)
      else RefreshCheck(Some(row), rows)
  }

  /** What `logout` leaves behind: the table after validation, with the family
      revoked when the token validated. */
  function AfterLogout(rows: seq<RefreshToken>, token: string, now: Time): seq<RefreshToken>
  {
    var c := CheckRefresh(rows, token, now);
    if c.record.Some? then Revoke(c.rows, Family(c.record.value.familyId), now) else c.rows
  }

  /** After `logout`, the token it was given never validates again, at any
      later time, whether it was live, already revoked, expired or unknown. */
  lemma {:induction false} LoggedOutTokenNeverValidates(rows: seq<RefreshToken>, token: string, now: Time, later: Time)
    requires RefreshTableValid(rows) && now <= later
    ensures RefreshTableValid(AfterLogout(rows, token, now))
    ensures CheckRefresh(AfterLogout(rows, token, now), token, later).record.None?
  {
    var c := CheckRefresh(rows, token, now);
    match FindRefresh(rows, token)
    case None =>
      assert AfterLogout(rows, token, now) == rows;
    case Some(m) =>
      RevokeKeepsValid(rows, Family(rows[m].familyId), now);
      if c.record.Some? || rows[m].revokedAt.Some? {
        assert AfterLogout(rows, token, now) == Revoke(rows, Family(rows[m].familyId), now);
        RevokedRowNeverValidates(rows, token, m, now, later);
      } else {
        assert AfterLogout(rows, token, now) == rows;
      }
  }

  /** Once the family of the row a token names is revoked, the token no longer
      validates. */
  lemma RevokedRowNeverValidates(rows: seq<RefreshToken>, token: string, m: nat, now: Time, later: Time)
    requires RefreshTableValid(rows) && m < |rows| && rows[m].tokenHash == HashToken(token)
    ensures CheckRefresh(Revoke(rows, Family(rows[m].familyId), now), token, later).record.None?
  {
    var after := Revoke(rows, Family(rows[m].familyId), now);
    match FindRefresh(after, token)
    case None =>
    case Some(k) =>
      assert rows[k].tokenHash == after[k].tokenHash;
      RefreshRowUnique(rows, k, m);
  }

  /** Validation only ever revokes a whole family, which keeps the table valid. */
  lemma CheckRefreshKeepsValid(rows: seq<RefreshToken>, token: string, now: Time)
    requires RefreshTableValid(rows)
    ensures RefreshTableValid(CheckRefresh(rows, token, now).rows)
  {
    match FindRefresh(rows, token)
    case None =>
    case Some(m) => RevokeKeepsValid(rows, Family(rows[m].familyId), now);
  }

  /** After `revokeAllUserTokens`, no refresh token of that user validates,
      at any time. */
  lemma RevokeAllEndsSessions(rows: seq<RefreshToken>, userId: string, now: Time, token: string, later: Time)
    ensures var rec := CheckRefresh(Revoke(rows, OwnedBy(userId), now), token, later).record;
            rec.Some? ==> rec.value.userId != userId
  {
  }

  /** `rotateRefreshToken`'s effect: the presented row revoked now, one new row
      in the same family for the same user, unrevoked, valid for seven days. */
  function Rotate(rows: seq<RefreshToken>, k: nat, id: string, secret: string,
                  ipAddress: string, userAgent: string, now: Time): (r: seq<RefreshToken>)
    requires k < |rows|
    ensures |r| == |rows| + 1
    ensures r[k] == rows[k].(revokedAt := Some(now))
    ensures forall i :: 0 <= i < |rows| && i != k ==> r[i] == rows[i]
    ensures r[|rows|].familyId == rows[k].familyId && r[|rows|].userId == rows[k].userId
    ensures r[|rows|].revokedAt.None? && r[|rows|].expiresAt == now + RefreshLifetime
    ensures r[|rows|].tokenHash == HashToken(secret) && r[|rows|].id == id
  {
    var prev := rows[k];
    rows[k := prev.(revokedAt := Some(now))]
      + [RefreshToken(id, prev.userId, HashToken(secret), prev.familyId, now + RefreshLifetime, None, ipAddress, userAgent)]
  }

  /** The row `createRefreshToken` stores: the digest of the secret, in the
      given family, live for seven days. */
  function IssuedRefresh(id: string, userId: string, secret: string, familyId: string,
                         ipAddress: string, userAgent: string, now: Time): RefreshToken
  {
    RefreshToken(id, userId, HashToken(secret), familyId, now + RefreshLifetime, None, ipAddress, userAgent)
  }

  /** A secret, a row id and a family id no row uses: what fresh randomness gives. */
  predicate FreshRefresh(rows: seq<RefreshToken>, secret: string, id: string)
  {
    forall i :: 0 <= i < |rows| ==> rows[i].tokenHash != HashToken(secret) && rows[i].id != id
  }

  predicate FreshFamily(rows: seq<RefreshToken>, familyId: string)
  {
    forall i :: 0 <= i < |rows| ==> rows[i].familyId != familyId
  }

  /** Rotating the one live row of a family keeps exactly one live row in it. */
  lemma RotateKeepsValid(rows: seq<RefreshToken>, k: nat, id: string, secret: string,
                         ipAddress: string, userAgent: string, now: Time)
    requires RefreshTableValid(rows) && k < |rows| && rows[k].revokedAt.None?
    requires FreshRefresh(rows, secret, id)
    ensures RefreshTableValid(Rotate(rows, k, id, secret, ipAddress, userAgent, now))
  {
    var r := Rotate(rows, k, id, secret, ipAddress, userAgent, now);
    forall i, j | 0 <= i < j < |r| ensures RefreshCompatible(r[i], r[j]) {
      if j == |rows| {
        if i != k {
          if i < k { assert RefreshCompatible(rows[i], rows[k]); } else { assert RefreshCompatible(rows[k], rows[i]); }
        }
      } else {
        assert RefreshCompatible(rows[i], rows[j]);
      }
    }
  }

  /** A freshly issued refresh token validates, to its own row, until it expires. */
  lemma {:induction false} IssuedTokenValidates(rows: seq<RefreshToken>, row: RefreshToken, secret: string, now: Time)
    requires RefreshTableValid(rows) && FreshRefresh(rows, secret, row.id)
    requires row.tokenHash == HashToken(secret) && row.revokedAt.None? && now <= row.expiresAt
    ensures CheckRefresh(rows + [row], secret, now).record == Some(row)
  {
    var r := rows + [row];
    assert r[|rows|] == row;
    var k := FindRefresh(r, secret).value;
    assert r[k] == row;
  }

  /** Storing a row with a fresh secret, id and family keeps the table valid. */
  lemma AddRefreshKeepsValid(rows: seq<RefreshToken>, row: RefreshToken, secret: string)
    requires RefreshTableValid(rows) && FreshRefresh(rows, secret, row.id) && FreshFamily(rows, row.familyId)
    requires row.tokenHash == HashToken(secret)
    ensures RefreshTableValid(rows + [row])
  {
    var r := rows + [row];
    forall i, j | 0 <= i < j < |r| ensures RefreshCompatible(r[i], r[j]) {
      if j < |rows| {
        assert RefreshCompatible(rows[i], rows[j]);
      }
    }
  }

  /** The secret a rotation hands out validates at once, naming the new row. */
  lemma {:induction false} RotatedTokenValidates(rows: seq<RefreshToken>, k: nat, id: string, secret: string,
                                                 ipAddress: string, userAgent: string, now: Time)
    requires RefreshTableValid(rows) && k < |rows| && rows[k].revokedAt.None?
    requires FreshRefresh(rows, secret, id)
    ensures var r := Rotate(rows, k, id, secret, ipAddress, userAgent, now);
            CheckRefresh(r, secret, now).record == Some(r[|rows|])
  {
    var r := Rotate(rows, k, id, secret, ipAddress, userAgent, now);
    RotateKeepsValid(rows, k, id, secret, ipAddress, userAgent, now);
    var m := FindRefresh(r, secret).value;
    RefreshRowUnique(r, m, |rows|);
  }

  /** Reuse detection: once a token has been rotated, replaying the old secret
      answers null and revokes the family, after which the secret issued by the
      rotation is rejected too, whatever the time. */
  lemma {:induction false} ReplayAfterRotationKillsFamily(
    rows: seq<RefreshToken>, k: nat, oldSecret: string, newSecret: string, id: string,
    ipAddress: string, userAgent: string, rotatedAt: Time, replayedAt: Time, presentedAt: Time)
    requires RefreshTableValid(rows) && k < |rows|
    requires rows[k].tokenHash == HashToken(oldSecret) && rows[k].revokedAt.None?
    requires FreshRefresh(rows, newSecret, id)
    ensures var rotated := Rotate(rows, k, id, newSecret, ipAddress, userAgent, rotatedAt);
            var replay := CheckRefresh(rotated, oldSecret, replayedAt);
            replay.record.None? && CheckRefresh(replay.rows, newSecret, presentedAt).record.None?
  {
    var rotated := Rotate(rows, k, id, newSecret, ipAddress, userAgent, rotatedAt);
    RotateKeepsValid(rows, k, id, newSecret, ipAddress, userAgent, rotatedAt);
    assert rotated[k].tokenHash == HashToken(oldSecret) && rotated[k].revokedAt.Some?;
    var family := Family(rows[k].familyId);
    var replay := CheckRefresh(rotated, oldSecret, replayedAt);
    assert replay.rows == Revoke(rotated, family, replayedAt);
    RevokeKeepsValid(rotated, family, replayedAt);
    var n := |rows|;
    assert replay.rows[n].revokedAt.Some?;
    forall m | 0 <= m < |replay.rows| && replay.rows[m].tokenHash == HashToken(newSecret)
      ensures replay.rows[m].revokedAt.Some?
    {
      RefreshRowUnique(replay.rows, m, n);
    }
  }

  // ---------------------------------------------------------------------------
  // Activation tokens as a function of the table

  /** `findOne({ where: { tokenHash, tokenType } })`, then the `usedAt` and expiry checks. */
  function CheckActivation(rows: seq<ActivationToken>, token: string, tokenType: TokenType, now: Time)
    : (r: Option<ActivationToken>)
    ensures r.Some? ==> r.value in rows && r.value.tokenHash == HashToken(token)
                        && r.value.tokenType == tokenType && r.value.usedAt.None? && now <= r.value.expiresAt
    ensures ActivationTableValid(rows) ==>
              (r.Some? <==> exists i :: 0 <= i < |rows| && rows[i].tokenHash == HashToken(token)
                                  && rows[i].tokenType == tokenType && rows[i].usedAt.None?
                                  && now <= rows[i].expiresAt)
  {
    var found := FindFirst(rows, (row: ActivationToken) => row.tokenHash == HashToken(token) && row.tokenType == tokenType);
    match found
    case None => None
    case Some(k) =>
      var row := rows[k];
      if row.usedAt.Some? then None
      else if row.expiresAt < now then None
      else Some(row)
  }

  /** The row `createActivationToken` stores: the digest of the secret, its
      type, and the type's lifetime. */
  function IssuedActivation(id: string, userId: string, secret: string, tokenType: TokenType, now: Time)
    : ActivationToken
  {
    ActivationToken(id, userId, HashToken(secret), tokenType, now + Lifetime(tokenType), None)
  }

  /** A secret and a row id no activation or reset row uses. */
  predicate FreshSecret(rows: seq<ActivationToken>, secret: string, id: string)
  {
    forall i :: 0 <= i < |rows| ==> rows[i].tokenHash != HashToken(secret) && rows[i].id != id
  }

  lemma AddActivationKeepsValid(rows: seq<ActivationToken>, row: ActivationToken, secret: string)
    requires ActivationTableValid(rows) && FreshSecret(rows, secret, row.id) && row.tokenHash == HashToken(secret)
    ensures ActivationTableValid(rows + [row])
  {
    var r := rows + [row];
    forall i, j | 0 <= i < j < |r| ensures ActivationCompatible(r[i], r[j]) {
      if j < |rows| {
        assert ActivationCompatible(rows[i], rows[j]);
      }
    }
  }

  /** A freshly issued activation or reset token validates, for its own type
      and to its own row, until it expires. */
  lemma {:induction false} IssuedActivationValidates(rows: seq<ActivationToken>, row: ActivationToken, secret: string,
                                                     now: Time)
    requires FreshSecret(rows, secret, row.id)
    requires row.tokenHash == HashToken(secret) && row.usedAt.None? && now <= row.expiresAt
    ensures CheckActivation(rows + [row], secret, row.tokenType, now) == Some(row)
  {
    var r := rows + [row];
    var p := (x: ActivationToken) => x.tokenHash == HashToken(secret) && x.tokenType == row.tokenType;
    assert p(r[|rows|]);
    var k := FindFirst(r, p).value;
    assert r[k] == row;
  }

  /** `update(tokenId, { usedAt: now })`: the row with that id becomes used;
      nothing else changes. */
  function MarkUsed(rows: seq<ActivationToken>, tokenId: string, now: Time): (r: seq<ActivationToken>)
    ensures |r| == |rows|
    ensures forall i :: 0 <= i < |r| && rows[i].id == tokenId ==> r[i] == rows[i].(usedAt := Some(now))
    ensures forall i :: 0 <= i < |r| && rows[i].id != tokenId ==> r[i] == rows[i]
  {
    seq(|rows|, i requires 0 <= i < |rows| =>
      if rows[i].id == tokenId then rows[i].(usedAt := Some(now)) else rows[i])
  }

  lemma MarkUsedKeepsValid(rows: seq<ActivationToken>, tokenId: string, now: Time)
    requires ActivationTableValid(rows)
    ensures ActivationTableValid(MarkUsed(rows, tokenId, now))
  {
    var r := MarkUsed(rows, tokenId, now);
    forall i, j | 0 <= i < j < |r| ensures ActivationCompatible(r[i], r[j]) {
      assert ActivationCompatible(rows[i], rows[j]);
    }
  }

  /** Single use: once the row a secret validated to is marked used, that secret
      never validates again, for either token type and at any time. */
  lemma UsedTokenNeverValidates(rows: seq<ActivationToken>, token: string, tokenType: TokenType,
                                now: Time, usedAt: Time, later: Time, laterType: TokenType)
    requires ActivationTableValid(rows)
    requires CheckActivation(rows, token, tokenType, now).Some?
    ensures CheckActivation(MarkUsed(rows, CheckActivation(rows, token, tokenType, now).value.id, usedAt),
                            token, laterType, later).None?
  {
    var row := CheckActivation(rows, token, tokenType, now).value;
    var after := MarkUsed(rows, row.id, usedAt);
    MarkUsedKeepsValid(rows, row.id, usedAt);
    var k :| 0 <= k < |rows| && rows[k] == row;
    forall i | 0 <= i < |after| && after[i].tokenHash == HashToken(token)
      ensures after[i].usedAt.Some?
    {
      ActivationRowUnique(rows, i, k);
    }
  }

  /** In a valid table an id or a digest picks out at most one row. */
  lemma ActivationRowUnique(rows: seq<ActivationToken>, i: nat, k: nat)
    requires ActivationTableValid(rows) && i < |rows| && k < |rows|
    requires rows[i].id == rows[k].id || rows[i].tokenHash == rows[k].tokenHash
    ensures i == k
  {
  }

  lemma RefreshRowUnique(rows: seq<RefreshToken>, i: nat, k: nat)
    requires RefreshTableValid(rows) && i < |rows| && k < |rows|
    requires rows[i].id == rows[k].id || rows[i].tokenHash == rows[k].tokenHash
    ensures i == k
  {
  }

  // ---------------------------------------------------------------------------
  // The store

  class TokenStore {
    var refreshTokens: seq<RefreshToken>
    var activationTokens: seq<ActivationToken>

    ghost predicate Valid()
      reads this
    {
      RefreshTableValid(refreshTokens) && ActivationTableValid(activationTokens)
    }

    constructor ()
      ensures Valid() && refreshTokens == [] && activationTokens == []
    {
      refreshTokens := [];
      activationTokens := [];
    }

    /** `createRefreshToken`: stores the digest of `secret` in a new family and
        hands back the secret itself. */
    method CreateRefreshToken(userId: string, ipAddress: string, userAgent: string,
                              secret: string, familyId: string, id: string, now: Time)
      returns (token: string)
      requires Valid()
      requires FreshRefresh(refreshTokens, secret, id) && FreshFamily(refreshTokens, familyId)
      modifies this
      ensures Valid()
      ensures token == secret
      ensures refreshTokens == old(refreshTokens) + [IssuedRefresh(id, userId, secret, familyId, ipAddress, userAgent, now)]
      ensures activationTokens == old(activationTokens)
    {
      var row := IssuedRefresh(id, userId, secret, familyId, ipAddress, userAgent, now);
      AddRefreshKeepsValid(refreshTokens, row, secret);
      refreshTokens := refreshTokens + [row];
      token := secret;
    }

    /** `validateRefreshToken`. */
    method ValidateRefreshToken(token: string, now: Time) returns (record: Option<RefreshToken>)
      requires Valid()
      modifies this
      ensures Valid()
      ensures record == CheckRefresh(old(refreshTokens), token, now).record
      ensures refreshTokens == CheckRefresh(old(refreshTokens), token, now).rows
      ensures activationTokens == old(activationTokens)
    {
      var found := FindRefresh(refreshTokens, token);
      if found.None? {
        return None;
      }
      var row := refreshTokens[found.value];
      if row.revokedAt.Some? {
        RevokeTokenFamily(row.familyId, now);
        return None;
      }
      if row.expiresAt < now {
        return None;
      }
      return Some(row);
    }

    /** `rotateRefreshToken`, given the record `validateRefreshToken` returned. */
    method RotateRefreshToken(oldToken: RefreshToken, ipAddress: string, userAgent: string,
                              secret: string, id: string, now: Time)
      returns (token: string)
      requires Valid()
      requires oldToken in refreshTokens && oldToken.revokedAt.None?
      requires FreshRefresh(refreshTokens, secret, id)
      modifies this
      ensures Valid()
      ensures token == secret
      ensures exists k :: 0 <= k < |old(refreshTokens)| && old(refreshTokens)[k] == oldToken
                && refreshTokens == Rotate(old(refreshTokens), k, id, secret, ipAddress, userAgent, now)
      ensures activationTokens == old(activationTokens)
    {
      var found := FindFirst(refreshTokens, (row: RefreshToken) => row.id == oldToken.id);
      var k := found.value;
      assert refreshTokens[k] == oldToken by {
        var m :| 0 <= m < |refreshTokens| && refreshTokens[m] == oldToken;
        RefreshRowUnique(refreshTokens, m, k);
      }
      RotateKeepsValid(refreshTokens, k, id, secret, ipAddress, userAgent, now);
      refreshTokens := Rotate(refreshTokens, k, id, secret, ipAddress, userAgent, now);
      token := secret;
    }

    /** `revokeTokenFamily`. */
    method RevokeTokenFamily(familyId: string, now: Time)
      requires Valid()
      modifies this
      ensures Valid()
      ensures refreshTokens == Revoke(old(refreshTokens), Family(familyId), now)
      ensures activationTokens == old(activationTokens)
    {
      RevokeKeepsValid(refreshTokens, Family(familyId), now);
      refreshTokens := Revoke(refreshTokens, Family(familyId), now);
    }

    /** `revokeAllUserTokens`. */
    method RevokeAllUserTokens(userId: string, now: Time)
      requires Valid()
      modifies this
      ensures Valid()
      ensures refreshTokens == Revoke(old(refreshTokens), OwnedBy(userId), now)
      ensures activationTokens == old(activationTokens)
    {
      RevokeKeepsValid(refreshTokens, OwnedBy(userId), now);
      refreshTokens := Revoke(refreshTokens, OwnedBy(userId), now);
    }

    predicate FreshActivation(secret: string, id: string)
      reads this
    {
      FreshSecret(activationTokens, secret, id)
    }

    /** `createActivationToken`: stores the digest of `secret` with its type and
        expiry, and hands back the secret. */
    method CreateActivationToken(userId: string, tokenType: TokenType, secret: string, id: string, now: Time)
      returns (token: string)
      requires Valid() && FreshActivation(secret, id)
      modifies this
      ensures Valid()
      ensures token == secret
      ensures activationTokens == old(activationTokens) + [IssuedActivation(id, userId, secret, tokenType, now)]
      ensures refreshTokens == old(refreshTokens)
    {
      var row := IssuedActivation(id, userId, secret, tokenType, now);
      AddActivationKeepsValid(activationTokens, row, secret);
      activationTokens := activationTokens + [row];
      token := secret;
    }

    /** `validateActivationToken`: reads the table only. */
    method ValidateActivationToken(token: string, tokenType: TokenType, now: Time)
      returns (record: Option<ActivationToken>)
      ensures record == CheckActivation(activationTokens, token, tokenType, now)
    {
      record := CheckActivation(activationTokens, token, tokenType, now);
    }

    /** `markTokenAsUsed`. */
    method MarkTokenAsUsed(tokenId: string, now: Time)
      requires Valid()
      modifies this
      ensures Valid()
      ensures activationTokens == MarkUsed(old(activationTokens), tokenId, now)
      ensures refreshTokens == old(refreshTokens)
    {
      MarkUsedKeepsValid(activationTokens, tokenId, now);
      activationTokens := MarkUsed(activationTokens, tokenId, now);
    }

    /** `cleanupExpiredTokens`: deletes refresh rows already expired and
        activation rows expired more than seven days ago. */
    method CleanupExpiredTokens(now: Time)
      requires Valid()
      modifies this
      ensures Valid()
      ensures refreshTokens == Filter(old(refreshTokens), (row: RefreshToken) => !(row.expiresAt < now))
      ensures activationTokens
                == Filter(old(activationTokens), (row: ActivationToken) => !(row.expiresAt < now - ActivationRetention))
    {
      FilterPreservesPairwise(refreshTokens, (row: RefreshToken) => !(row.expiresAt < now), RefreshCompatible);
      FilterPreservesPairwise(activationTokens,
        (row: ActivationToken) => !(row.expiresAt < now - ActivationRetention), ActivationCompatible);
      refreshTokens := Filter(refreshTokens, (row: RefreshToken) => !(row.expiresAt < now));
      activationTokens := Filter(activationTokens, (row: ActivationToken) => !(row.expiresAt < now - ActivationRetention));
    }
  }
}
